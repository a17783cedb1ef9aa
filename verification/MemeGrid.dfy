/** The justified rows of the meme grid: greedy line breaking, each full row stretched to the container's width. */
module MemeGrid {

  /** A meme with its thumbnail's size; 0 stands for a missing size. */
  datatype Meme = Meme(id: string, thumbnailWidth: nat, thumbnailHeight: nat)

  /** A length in pixels, or what comes out of a division by zero. */
  datatype Length = Finite(px: real) | NotFinite

  datatype Item = Item(meme: Meme, w: Length, h: Length, index: nat)

  const ROW_HEIGHT := 220
  const GUTTER := 4

  function RowHeight(container: real): int {
    if container < 480.0 then 140 else if container < 768.0 then 170 else ROW_HEIGHT
  }

  function MaxFraction(container: real): real {
    if container < 480.0 then 0.30 else if container < 768.0 then 0.34 else 0.25
  }

  /** Math.round: halves go up. */
  function Round(x: real): int {
    (x + 0.5).Floor
  }

  function MaxItemWidth(container: real): int {
    (container * MaxFraction(container)).Floor
  }

  function Ratio(m: Meme): real {
    if m.thumbnailWidth != 0 && m.thumbnailHeight != 0 then m.thumbnailWidth as real / m.thumbnailHeight as real
    else 1.0
  }

  function Clamp(m: Meme, container: real): (w: int)
    ensures container > 0.0 ==> w >= 0
  {
    var natural := Round(Ratio(m) * RowHeight(container) as real);
    NotNegative(Ratio(m), RowHeight(container) as real);
    NotNegative(container, MaxFraction(container));
    if natural <= MaxItemWidth(container) then natural else MaxItemWidth(container)
  }

  lemma NotNegative(x: real, y: real)
    ensures x >= 0.0 && y >= 0.0 ==> x * y >= 0.0
  {
  }

  /** The unstretched widths of all memes. */
  function Naturals(memes: seq<Meme>, container: real): (ws: seq<int>)
    ensures |ws| == |memes|
    ensures container > 0.0 ==> AllNatural(ws)
  {
    seq(|memes|, k requires 0 <= k < |memes| => Clamp(memes[k], container))
  }

  /** The sum of the widths a..b. */
  function Total(ws: seq<int>, a: nat, b: nat): (t: int)
    requires a <= b <= |ws|
    ensures AllNatural(ws) ==> t >= 0
    decreases b
  {
    if a == b then 0 else Total(ws, a, b - 1) + ws[b - 1]
  }

  ghost predicate AllNatural(ws: seq<int>) {
    forall k :: 0 <= k < |ws| ==> ws[k] >= 0
  }

  /** The items a..b side by side, gutters included, are no wider than the container. */
  ghost predicate Fits(ws: seq<int>, container: real, a: nat, b: nat)
    requires a < b <= |ws|
  {
    (Total(ws, a, b) + GUTTER * (b - a - 1)) as real <= container
  }

  /**
   A meme's natural width is its thumbnail's width over its height, or 1 where one is missing, times the row height,
   rounded to the nearest pixel, halves up; but at most the whole pixels of the container's share.
   */
  lemma NaturalWidth(m: Meme, container: real, exact: real, nearest: int, most: int)
    requires exact == RowHeight(container) as real *
                      if m.thumbnailWidth > 0 && m.thumbnailHeight > 0
                      then m.thumbnailWidth as real / m.thumbnailHeight as real else 1.0
    requires nearest as real - 0.5 <= exact < nearest as real + 0.5
    requires most as real <= container * MaxFraction(container) < most as real + 1.0
    ensures Clamp(m, container) == if nearest < most then nearest else most
  {
  }

  // ---------------------------------------------------------------- buckets

  /** The open row: memes with their indices. */
  type Bucket = seq<(Meme, nat)>

  /** The bucket with the memes a..b. */
  function BucketOf(memes: seq<Meme>, a: nat, b: nat): (bucket: Bucket)
    requires a <= b <= |memes|
    ensures |bucket| == b - a
  {
    seq(b - a, k requires 0 <= k < b - a => (memes[a + k], a + k))
  }

  /** The sum of a bucket's natural widths. */
  function BucketTotal(bucket: Bucket, container: real): int {
    if bucket == [] then 0
    else BucketTotal(bucket[..|bucket| - 1], container) + Clamp(bucket[|bucket| - 1].0, container)
  }

  function Gutters(bucket: Bucket): int {
    GUTTER * (|bucket| - 1)
  }

  // ---------------------------------------------------------------- what a layout is

  /** The factor by which a full row is stretched. */
  function Scale(bucket: Bucket, container: real): real
    requires BucketTotal(bucket, container) > 0
  {
    (container - Gutters(bucket) as real) / BucketTotal(bucket, container) as real
  }

  /** The ideal width of an item, or of several, stretched but not rounded. */
  function Stretched(natural: int, scale: real): real {
    natural as real * scale
  }

  function Pixels(l: Length): real {
    if l.Finite? then l.px else 0.0
  }

  /** The sum of a row's widths. */
  function WidthOf(row: seq<Item>): real {
    if row == [] then 0.0 else WidthOf(row[..|row| - 1]) + Pixels(row[|row| - 1].w)
  }

  /** The row's items are the bucket's, in order. */
  ghost predicate Carries(row: seq<Item>, bucket: Bucket) {
    |row| <= |bucket| && forall k :: 0 <= k < |row| ==> row[k].meme == bucket[k].0 && row[k].index == bucket[k].1
  }

  /** The two differ by at most half a pixel per item. */
  ghost predicate IsNear(x: real, y: real, items: nat) {
    -0.5 * items as real <= x - y <= 0.5 * items as real
  }

  /** Items of one height, each as wide as its stretched natural width rounded. */
  ghost predicate IsRounded(row: seq<Item>, bucket: Bucket, container: real, scale: real, h: Length) {
    Carries(row, bucket)
    && forall k :: 0 <= k < |row| ==>
         row[k].h == h && row[k].w == Finite(Round(Stretched(Clamp(bucket[k].0, container), scale)) as real)
  }

  /** Such items with a last one that is near its stretched width: off by half a pixel at most for each other item. */
  ghost predicate IsStretched(row: seq<Item>, bucket: Bucket, container: real, scale: real, h: Length) {
    && row != [] && |row| == |bucket| && Carries(row, bucket)
    && var last := |row| - 1;
       && IsRounded(row[..last], bucket, container, scale, h)
       && row[last].h == h && row[last].w.Finite?
       && IsNear(row[last].w.px, Stretched(Clamp(bucket[last].0, container), scale), last)
  }

  /** A full row: exactly as wide as the container, stretched by one factor of at least 1. */
  ghost predicate IsFullRow(row: seq<Item>, bucket: Bucket, container: real) {
    && BucketTotal(bucket, container) > 0
    && WidthOf(row) + Gutters(bucket) as real == container
    && var scale := Scale(bucket, container);
       scale >= 1.0 && IsStretched(row, bucket, container, scale,
                                   Finite(Round(Stretched(RowHeight(container), scale)) as real))
  }

  /**
   A row of items without any width has no factor: it has no finite height, and but for a lone item no finite widths.
   */
  ghost predicate IsCollapsedRow(row: seq<Item>, bucket: Bucket, container: real) {
    && row != [] && |row| == |bucket| && Carries(row, bucket)
    && forall k :: 0 <= k < |row| ==>
         row[k].h.NotFinite? && row[k].w == if |row| == 1 then Finite(container) else NotFinite
  }

  /** The last row: every item at its natural size. */
  ghost predicate IsLastRow(row: seq<Item>, bucket: Bucket, container: real) {
    && row != [] && |row| == |bucket| && Carries(row, bucket)
    && forall k :: 0 <= k < |row| ==>
         row[k].w == Finite(Clamp(bucket[k].0, container) as real) && row[k].h == Finite(RowHeight(container) as real)
  }

  /** Line breaks: row r holds the items cuts[r]..cuts[r + 1]. */
  ghost predicate IsBreaking(ws: seq<int>, cuts: seq<nat>) {
    && cuts != [] && cuts[0] == 0 && cuts[|cuts| - 1] == |ws|
    && forall q, r :: 0 <= q < r < |cuts| ==> cuts[q] < cuts[r]
  }

  /** Row r fits, with so many items added to it. */
  ghost predicate RowFits(ws: seq<int>, container: real, cuts: seq<nat>, r: nat, added: nat)
    requires r + 1 < |cuts|
  {
    cuts[r] < cuts[r + 1] + added <= |ws| && Fits(ws, container, cuts[r], cuts[r + 1] + added)
  }

  ghost predicate AllFit(ws: seq<int>, container: real, cuts: seq<nat>) {
    forall r :: 0 <= r < |cuts| - 1 ==> RowFits(ws, container, cuts, r, 0)
  }

  /** No row but the last could have taken the item that starts the next one. */
  ghost predicate IsGreedy(ws: seq<int>, container: real, cuts: seq<nat>) {
    forall r :: 0 <= r < |cuts| - 2 ==> !RowFits(ws, container, cuts, r, 1)
  }

  // ---------------------------------------------------------------- the algorithm

  method FlushLast(container: real, bucket: Bucket) returns (row: seq<Item>)
    requires bucket != []
    ensures IsLastRow(row, bucket, container)
  {
    row := seq(|bucket|, k requires 0 <= k < |bucket| =>
                 Item(bucket[k].0, Finite(Clamp(bucket[k].0, container) as real), Finite(RowHeight(container) as real),
                      bucket[k].1));
  }

  method TotalNatural(container: real, bucket: Bucket) returns (total: int)
    ensures total == BucketTotal(bucket, container)
  {
    hide Clamp;
    total := 0;
    for i := 0 to |bucket|
      invariant total == BucketTotal(bucket[..i], container)
    {
      assert bucket[..i + 1][..i] == bucket[..i];
      total := total + Clamp(bucket[i].0, container);
    }
    assert bucket[..|bucket|] == bucket;
  }

  /** The items laid out so far in a full row that has so much room besides its gutters. */
  ghost predicate IsPartOfRow(row: seq<Item>, bucket: Bucket, container: real, room: real, scale: real, h: Length) {
    && |row| <= |bucket|
    && Stretched(BucketTotal(bucket, container), scale) == room
    && (|row| < |bucket| ==> IsRounded(row, bucket, container, scale, h))
    && (|row| < |bucket| ==> IsNear(WidthOf(row), Stretched(BucketTotal(bucket[..|row|], container), scale), |row|))
    && (|row| == |bucket| ==> WidthOf(row) == room && IsStretched(row, bucket, container, scale, h))
  }

  method StretchRow(container: real, bucket: Bucket, room: real, scale: real, h: Length) returns (row: seq<Item>)
    requires bucket != [] && Stretched(BucketTotal(bucket, container), scale) == room
    ensures WidthOf(row) == room && IsStretched(row, bucket, container, scale, h)
  {
    var n := |bucket|;
    var remaining := room;
    row := [];
    NoItems(bucket, container, scale, h);
    hide Stretched, Round, IsNear, Clamp, BucketTotal, IsRounded, IsStretched;
    assert IsPartOfRow(row, bucket, container, room, scale, h);
    for i := 0 to n
      invariant |row| == i && remaining == room - WidthOf(row)
      invariant IsPartOfRow(row, bucket, container, room, scale, h)
    {
      hide IsPartOfRow, WidthOf;
      var w := if i == n - 1 then remaining else Round(Stretched(Clamp(bucket[i].0, container), scale)) as real;
      var item := Item(bucket[i].0, Finite(w), h, bucket[i].1);
      Widen(row, item);
      OneMoreItem(row, item, bucket, container, room, scale, h);
      remaining := remaining - w;
      row := row + [item];
    }
  }

  lemma OneMoreItem(row: seq<Item>, item: Item, bucket: Bucket, container: real, room: real, scale: real, h: Length)
    requires |row| < |bucket| && IsPartOfRow(row, bucket, container, room, scale, h)
    requires item.meme == bucket[|row|].0 && item.index == bucket[|row|].1 && item.h == h
    requires item.w == Finite(if |row| == |bucket| - 1 then room - WidthOf(row)
                              else Round(Stretched(Clamp(item.meme, container), scale)) as real)
    ensures IsPartOfRow(row + [item], bucket, container, room, scale, h)
  {
    hide Stretched, Round, IsNear, Clamp, WidthOf, BucketTotal, IsRounded, IsStretched;
    var n := |row|;
    var before := BucketTotal(bucket[..n], container);
    var natural := Clamp(item.meme, container);
    BucketExtends(bucket, container, n);
    Widen(row, item);
    if n == |bucket| - 1 {
      assert bucket[..n + 1] == bucket;
      RestIsNear(WidthOf(row), before, natural, scale, room, n);
      LastItem(row, item, bucket, container, scale, h);
    } else {
      SumIsNear(WidthOf(row), before, natural, scale, n);
      NextItem(row, item, bucket, container, scale, h);
    }
  }

  lemma BucketExtends(bucket: Bucket, container: real, n: nat)
    requires n < |bucket|
    ensures BucketTotal(bucket[..n + 1], container)
            == BucketTotal(bucket[..n], container) + Clamp(bucket[n].0, container)
  {
    hide Clamp;
    assert bucket[..n + 1][..n] == bucket[..n];
  }

  lemma NextItem(row: seq<Item>, item: Item, bucket: Bucket, container: real, scale: real, h: Length)
    requires |row| < |bucket| && IsRounded(row, bucket, container, scale, h)
    requires item == Item(bucket[|row|].0, Finite(Round(Stretched(Clamp(bucket[|row|].0, container), scale)) as real),
                          h, bucket[|row|].1)
    ensures IsRounded(row + [item], bucket, container, scale, h)
  {
    hide Clamp, Round, Stretched;
  }

  lemma LastItem(row: seq<Item>, item: Item, bucket: Bucket, container: real, scale: real, h: Length)
    requires |row| + 1 == |bucket| && IsRounded(row, bucket, container, scale, h)
    requires item == Item(bucket[|row|].0, item.w, h, bucket[|row|].1)
    requires item.w.Finite? && IsNear(item.w.px, Stretched(Clamp(bucket[|row|].0, container), scale), |row|)
    ensures IsStretched(row + [item], bucket, container, scale, h)
  {
    hide Clamp, Round, Stretched, IsNear;
    assert (row + [item])[..|row|] == row;
  }

  /**
   The row of a bucket that the next item does not fit in. Without any width to divide by, the factor is not a number.
   */
  method FlushFull(container: real, bucket: Bucket) returns (row: seq<Item>)
    requires bucket != [] && 0 <= BucketTotal(bucket, container)
             && (BucketTotal(bucket, container) + Gutters(bucket)) as real <= container
    ensures if BucketTotal(bucket, container) > 0 then IsFullRow(row, bucket, container)
            else IsCollapsedRow(row, bucket, container)
  {
    hide Stretched, Round, IsStretched, WidthOf, RowHeight, BucketTotal;
    var gutters := (|bucket| - 1) * GUTTER;
    var total := TotalNatural(container, bucket);
    if total == 0 {
      row := seq(|bucket|, k requires 0 <= k < |bucket| =>
                   Item(bucket[k].0, if |bucket| == 1 then Finite(container) else NotFinite, NotFinite, bucket[k].1));
    } else {
      var scale := (container - gutters as real) / total as real;
      ScaleStretches(container - gutters as real, total, scale);
      row := StretchRow(container, bucket, container - gutters as real, scale,
                        Finite(Round(Stretched(RowHeight(container), scale)) as real));
    }
  }

  lemma Widen(row: seq<Item>, item: Item)
    ensures WidthOf(row + [item]) == WidthOf(row) + Pixels(item.w)
  {
    assert (row + [item])[..|row|] == row;
  }

  lemma NoItems(bucket: Bucket, container: real, scale: real, h: Length)
    ensures WidthOf([]) == 0.0 && IsNear(0.0, Stretched(BucketTotal(bucket[..0], container), scale), 0)
    ensures IsRounded([], bucket, container, scale, h)
  {
  }

  lemma ScaleStretches(room: real, total: int, scale: real)
    requires 0 < total && total as real <= room && scale == room / total as real
    ensures scale >= 1.0 && Stretched(total, scale) == room
  {
  }

  lemma StretchedAdds(a: int, b: int, scale: real)
    ensures Stretched(a + b, scale) == Stretched(a, scale) + Stretched(b, scale)
  {
  }

  /** One more rounded item adds at most half a pixel to the error. */
  lemma SumIsNear(width: real, before: int, natural: int, scale: real, i: nat)
    requires IsNear(width, Stretched(before, scale), i)
    ensures IsNear(width + Round(Stretched(natural, scale)) as real, Stretched(before + natural, scale), i + 1)
  {
    StretchedAdds(before, natural, scale);
    hide Stretched;
  }

  /** What remains for the last item is off by the error of the others. */
  lemma RestIsNear(width: real, before: int, natural: int, scale: real, room: real, i: nat)
    requires IsNear(width, Stretched(before, scale), i) && Stretched(before + natural, scale) == room
    ensures IsNear(room - width, Stretched(natural, scale), i)
  {
    StretchedAdds(before, natural, scale);
    hide Stretched;
  }

  /** A row that was closed because the next item would not fit. */
  ghost predicate IsClosedRow(row: seq<Item>, memes: seq<Meme>, container: real, a: nat, b: nat) {
    var ws := Naturals(memes, container);
    && a < b < |memes|
    && Fits(ws, container, a, b) && !Fits(ws, container, a, b + 1)
    && var bucket := BucketOf(memes, a, b);
       if BucketTotal(bucket, container) > 0 then IsFullRow(row, bucket, container)
       else IsCollapsedRow(row, bucket, container)
  }

  /** The closed rows; row r holds the memes cuts[r]..cuts[r + 1]. */
  ghost predicate AreClosed(rows: seq<seq<Item>>, cuts: seq<nat>, memes: seq<Meme>, container: real) {
    && |cuts| == |rows| + 1 && cuts[0] == 0
    && forall r :: 0 <= r < |rows| ==> IsClosedRow(rows[r], memes, container, cuts[r], cuts[r + 1])
  }

  /** The finished layout: closed rows, and a last one that holds the rest and fits. */
  ghost predicate IsLayout(rows: seq<seq<Item>>, cuts: seq<nat>, memes: seq<Meme>, container: real) {
    && rows != [] && |cuts| == |rows| + 1
    && var last := |rows| - 1;
       && AreClosed(rows[..last], cuts[..last + 1], memes, container)
       && cuts[last] < cuts[last + 1] == |memes|
       && IsLastRow(rows[last], BucketOf(memes, cuts[last], |memes|), container)
       && Fits(Naturals(memes, container), container, cuts[last], |memes|)
  }

  method BuildRows(memes: seq<Meme>, container: real) returns (rows: seq<seq<Item>>, ghost cuts: seq<nat>)
    requires container > 0.0
    ensures memes == [] ==> rows == []
    ensures memes != [] ==> IsLayout(rows, cuts, memes, container)
  {
    hide IsFullRow, IsCollapsedRow, IsLastRow, Total, BucketTotal, Naturals, Clamp, AllNatural;
    ghost var ws := Naturals(memes, container);
    rows, cuts := [], [0];
    var bucket: Bucket := [];
    var bucketW := 0;
    for flatIdx := 0 to |memes|
      invariant AreClosed(rows, cuts, memes, container)
      invariant cuts[|rows|] + |bucket| == flatIdx
      invariant if flatIdx == 0 then rows == [] else bucket != []
      invariant bucket == BucketOf(memes, cuts[|rows|], flatIdx)
      invariant bucket != [] ==> bucketW == Total(ws, cuts[|rows|], flatIdx) + Gutters(bucket)
      invariant bucket == [] ==> bucketW == 0
      invariant bucket != [] ==> Fits(ws, container, cuts[|rows|], flatIdx)
    {
      var nw := Clamp(memes[flatIdx], container);
      var needed := bucketW + (if |bucket| > 0 then GUTTER else 0) + nw;
      TakeNext(memes, container, cuts[|rows|], flatIdx);
      TakeNext(memes, container, flatIdx, flatIdx);
      TotalOfBucket(memes, container, cuts[|rows|], flatIdx);
      if |bucket| > 0 && needed as real > container {
        var row := FlushFull(container, bucket);
        assert IsClosedRow(row, memes, container, cuts[|rows|], flatIdx);
        rows, cuts := rows + [row], cuts + [flatIdx];
        bucket, bucketW := [], 0;
      }
      bucketW := bucketW + (if |bucket| > 0 then GUTTER else 0) + nw;
      bucket := bucket + [(memes[flatIdx], flatIdx)];
    }
    if |bucket| > 0 {
      var row := FlushLast(container, bucket);
      assert (rows + [row])[..|rows|] == rows && (cuts + [|memes|])[..|cuts|] == cuts;
      rows, cuts := rows + [row], cuts + [|memes|];
    }
  }

  lemma {:induction false} TotalOfBucket(memes: seq<Meme>, container: real, a: nat, b: nat)
    requires a <= b <= |memes|
    ensures var total := BucketTotal(BucketOf(memes, a, b), container);
            && total == Total(Naturals(memes, container), a, b)
            && (container > 0.0 ==> total >= 0)
    decreases b
  {
    hide Clamp;
    if a < b {
      TotalOfBucket(memes, container, a, b - 1);
      var bucket := BucketOf(memes, a, b);
      assert bucket[..|bucket| - 1] == BucketOf(memes, a, b - 1);
    }
  }

  lemma TakeNext(memes: seq<Meme>, container: real, a: nat, b: nat)
    requires a <= b < |memes| && container > 0.0
    ensures var ws := Naturals(memes, container);
            && Total(ws, a, b + 1) == Total(ws, a, b) + Clamp(memes[b], container)
            && (a == b ==> Total(ws, a, b) == 0)
            && Clamp(memes[b], container) as real <= container
  {
    assert container * MaxFraction(container) <= container;
  }

  // ---------------------------------------------------------------- what a layout means

  function Flatten(rows: seq<seq<Item>>): seq<Item> {
    if rows == [] then [] else Flatten(rows[..|rows| - 1]) + rows[|rows| - 1]
  }

  /** The items show the first memes, in order, each under its own index. */
  ghost predicate ShowInOrder(items: seq<Item>, memes: seq<Meme>) {
    |items| <= |memes| && forall i :: 0 <= i < |items| ==> items[i].meme == memes[i] && items[i].index == i
  }

  lemma {:induction false} ClosedShow(rows: seq<seq<Item>>, cuts: seq<nat>, memes: seq<Meme>, container: real)
    requires AreClosed(rows, cuts, memes, container)
    ensures |Flatten(rows)| == cuts[|rows|] && ShowInOrder(Flatten(rows), memes)
    decreases |rows|
  {
    hide Naturals, Fits, Scale, Round, WidthOf, BucketTotal, IsRounded, IsNear;
    if rows != [] {
      var n := |rows| - 1;
      ClosedShow(rows[..n], cuts[..n + 1], memes, container);
      assert IsClosedRow(rows[n], memes, container, cuts[n], cuts[n + 1]);
    }
  }

  /** Every meme is laid out once, in order, under its own index. */
  lemma LayoutShowsEachOnce(rows: seq<seq<Item>>, cuts: seq<nat>, memes: seq<Meme>, container: real)
    requires IsLayout(rows, cuts, memes, container)
    ensures |Flatten(rows)| == |memes|
    ensures forall i :: 0 <= i < |memes| ==> Flatten(rows)[i].meme == memes[i] && Flatten(rows)[i].index == i
  {
    hide AllNatural, Naturals, Fits, IsClosedRow, AreClosed;
    var last := |rows| - 1;
    ClosedShow(rows[..last], cuts[..last + 1], memes, container);
  }

  lemma {:induction false} ClosedBreak(rows: seq<seq<Item>>, cuts: seq<nat>, memes: seq<Meme>, container: real)
    requires AreClosed(rows, cuts, memes, container)
    ensures var ws := Naturals(memes, container);
            && (forall q, r :: 0 <= q < r < |cuts| ==> cuts[q] < cuts[r])
            && AllFit(ws, container, cuts)
            && forall r :: 0 <= r < |rows| ==> !RowFits(ws, container, cuts, r, 1)
    decreases |rows|
  {
    hide AllNatural, Fits, IsFullRow;
    if rows != [] {
      var n := |rows| - 1;
      ClosedBreak(rows[..n], cuts[..n + 1], memes, container);
      assert IsClosedRow(rows[n], memes, container, cuts[n], cuts[n + 1]);
      assert cuts[..n + 1][n] == cuts[n];
    }
  }

  /** The rows of a layout are a breaking into fitting rows, each but the last as full as it can be. */
  lemma LayoutIsGreedy(rows: seq<seq<Item>>, cuts: seq<nat>, memes: seq<Meme>, container: real)
    requires IsLayout(rows, cuts, memes, container)
    ensures var ws := Naturals(memes, container);
            IsBreaking(ws, cuts) && AllFit(ws, container, cuts) && IsGreedy(ws, container, cuts)
  {
    hide AllNatural, Fits, IsLastRow;
    var last := |rows| - 1;
    ClosedBreak(rows[..last], cuts[..last + 1], memes, container);
    assert forall q :: 0 <= q <= last ==> cuts[..last + 1][q] == cuts[q];
  }

  lemma {:induction false} TotalSplits(ws: seq<int>, a: nat, b: nat, c: nat)
    requires a <= b <= c <= |ws|
    ensures Total(ws, a, c) == Total(ws, a, b) + Total(ws, b, c)
    decreases c
  {
    if b < c {
      TotalSplits(ws, a, b, c - 1);
    }
  }

  /** What fits still fits with items taken away at either end. */
  lemma FitsWithin(ws: seq<int>, container: real, a: nat, b: nat, c: nat, d: nat)
    requires AllNatural(ws) && a <= b < c <= d <= |ws| && Fits(ws, container, a, d)
    ensures Fits(ws, container, b, c)
  {
    TotalSplits(ws, a, b, d);
    TotalSplits(ws, b, c, d);
  }

  /** After as many rows, the greedy breaking is never behind any other breaking whose rows fit. */
  lemma {:induction false} GreedyStaysAhead(ws: seq<int>, container: real, greedy: seq<nat>, other: seq<nat>, r: nat)
    requires AllNatural(ws) && IsBreaking(ws, greedy) && IsBreaking(ws, other)
    requires IsGreedy(ws, container, greedy) && AllFit(ws, container, other)
    requires r < |greedy| && r < |other|
    ensures greedy[r] >= other[r]
  {
    hide Fits;
    if r > 0 {
      GreedyStaysAhead(ws, container, greedy, other, r - 1);
      if greedy[r] < other[r] {
        assert RowFits(ws, container, other, r - 1, 0) && !RowFits(ws, container, greedy, r - 1, 1);
        FitsWithin(ws, container, other[r - 1], greedy[r - 1], greedy[r] + 1, other[r]);
        assert false;
      }
    }
  }

  /** No way to break the memes into rows that fit needs fewer rows. */
  lemma GreedyNeedsFewestRows(ws: seq<int>, container: real, greedy: seq<nat>, other: seq<nat>)
    requires AllNatural(ws) && IsBreaking(ws, greedy) && IsBreaking(ws, other)
    requires IsGreedy(ws, container, greedy) && AllFit(ws, container, other)
    ensures |greedy| <= |other|
  {
    hide AllNatural, IsGreedy, AllFit;
    if |greedy| > |other| {
      GreedyStaysAhead(ws, container, greedy, other, |other| - 1);
    }
  }

  /** Fitting and greediness leave one way to break the memes into rows. */
  lemma GreedyIsUnique(ws: seq<int>, container: real, one: seq<nat>, two: seq<nat>)
    requires AllNatural(ws) && IsBreaking(ws, one) && IsBreaking(ws, two)
    requires IsGreedy(ws, container, one) && AllFit(ws, container, one)
    requires IsGreedy(ws, container, two) && AllFit(ws, container, two)
    ensures one == two
  {
    hide Fits;
    GreedyNeedsFewestRows(ws, container, one, two);
    GreedyNeedsFewestRows(ws, container, two, one);
    forall r | 0 <= r < |one|
      ensures one[r] == two[r]
    {
      GreedyStaysAhead(ws, container, one, two, r);
      GreedyStaysAhead(ws, container, two, one, r);
    }
  }

  /** The layout shows the memes in the fewest rows that can hold them at their natural widths. */
  lemma LayoutHasFewestRows(rows: seq<seq<Item>>, cuts: seq<nat>, memes: seq<Meme>, container: real, other: seq<nat>)
    requires container > 0.0 && IsLayout(rows, cuts, memes, container)
    requires IsBreaking(Naturals(memes, container), other) && AllFit(Naturals(memes, container), container, other)
    ensures |rows| <= |other| - 1
  {
    hide AllNatural, AllFit, IsBreaking, Naturals;
    LayoutIsGreedy(rows, cuts, memes, container);
    GreedyNeedsFewestRows(Naturals(memes, container), container, cuts, other);
  }

  lemma {:induction false} TotalAtMost(ws: seq<int>, a: nat, b: nat, bound: int)
    requires a <= b <= |ws| && forall k :: 0 <= k < |ws| ==> ws[k] <= bound
    ensures Total(ws, a, b) <= (b - a) * bound
    decreases b
  {
    if a < b {
      TotalAtMost(ws, a, b - 1, bound);
    }
  }

  /** From 768 pixels on, every row but the last holds at least three memes. */
  lemma WideRowsHoldThree(rows: seq<seq<Item>>, cuts: seq<nat>, memes: seq<Meme>, container: real, r: nat)
    requires IsLayout(rows, cuts, memes, container)
    requires container >= 768.0 && r + 1 < |rows|
    ensures |rows[r]| >= 3
  {
    hide Naturals, IsFullRow, IsLastRow, MaxItemWidth, Total;
    assert IsClosedRow(rows[..|rows| - 1][r], memes, container, cuts[r], cuts[r + 1]);
    ClosedRowIsWide(rows[r], memes, container, cuts[r], cuts[r + 1]);
  }

  lemma ClosedRowIsWide(row: seq<Item>, memes: seq<Meme>, container: real, a: nat, b: nat)
    requires IsClosedRow(row, memes, container, a, b) && container >= 768.0
    ensures |row| == b - a >= 3
  {
    hide Naturals, MaxItemWidth, Total, Scale, WidthOf, BucketTotal, IsRounded, IsNear;
    NaturalsAreBounded(memes, container);
    TotalAtMost(Naturals(memes, container), a, b + 1, MaxItemWidth(container));
    FewItemsFit(Total(Naturals(memes, container), a, b + 1), container, b - a);
  }

  lemma NaturalsAreBounded(memes: seq<Meme>, container: real)
    ensures forall k :: 0 <= k < |memes| ==> Naturals(memes, container)[k] <= MaxItemWidth(container)
  {
  }

  lemma FewItemsFit(total: int, container: real, n: nat)
    requires container >= 768.0 && 0 < n && total <= (n + 1) * MaxItemWidth(container)
    ensures n < 3 ==> (total + GUTTER * n) as real <= container
  {
    assert MaxItemWidth(container) as real <= container * 0.25;
    assert n < 3 ==> n == 1 || n == 2;
  }

  /** A row collapses exactly when none of its items has a positive width. */
  lemma {:induction false} CollapsesIff(bucket: Bucket, container: real)
    requires container > 0.0
    ensures BucketTotal(bucket, container) >= 0
    ensures BucketTotal(bucket, container) == 0 <==>
              forall k :: 0 <= k < |bucket| ==> Clamp(bucket[k].0, container) == 0
    decreases |bucket|
  {
    hide Clamp;
    if bucket != [] {
      var rest := bucket[..|bucket| - 1];
      CollapsesIff(rest, container);
      assert forall k :: 0 <= k < |rest| ==> rest[k] == bucket[k];
    }
  }

  /** Every item has a width and a height. */
  predicate IsFiniteRow(row: seq<Item>) {
    forall k :: 0 <= k < |row| ==> row[k].w.Finite? && row[k].h.Finite?
  }

  /**
   In every layout the rows without finite sizes are exactly the rows before the last that hold no item with a positive
   width.
   */
  lemma RowIsFiniteIff(rows: seq<seq<Item>>, cuts: seq<nat>, memes: seq<Meme>, container: real, r: nat)
    requires container > 0.0 && IsLayout(rows, cuts, memes, container) && r < |rows|
    ensures 0 <= cuts[r] < cuts[r + 1] <= |memes|
    ensures IsFiniteRow(rows[r]) <==>
              r == |rows| - 1 || exists i :: cuts[r] <= i < cuts[r + 1] && Clamp(memes[i], container) > 0
  {
    hide Clamp, Naturals, Fits, IsFullRow, IsCollapsedRow, IsLastRow;
    var last := |rows| - 1;
    if r == last {
      LastRowIsFinite(rows[r], BucketOf(memes, cuts[r], cuts[r + 1]), container);
    } else {
      assert IsClosedRow(rows[..last][r], memes, container, cuts[..last + 1][r], cuts[..last + 1][r + 1]);
      var bucket := BucketOf(memes, cuts[r], cuts[r + 1]);
      CollapsesIff(bucket, container);
      ClosedRowIsFiniteIff(rows[r], bucket, container);
      assert forall i :: cuts[r] <= i < cuts[r + 1] ==> bucket[i - cuts[r]].0 == memes[i];
    }
  }

  lemma LastRowIsFinite(row: seq<Item>, bucket: Bucket, container: real)
    requires IsLastRow(row, bucket, container)
    ensures IsFiniteRow(row)
  {
    hide Clamp;
  }

  lemma ClosedRowIsFiniteIff(row: seq<Item>, bucket: Bucket, container: real)
    requires if BucketTotal(bucket, container) > 0 then IsFullRow(row, bucket, container)
             else IsCollapsedRow(row, bucket, container)
    ensures IsFiniteRow(row) <==> BucketTotal(bucket, container) > 0
  {
    hide Clamp, BucketTotal, WidthOf, Stretched, Round, IsNear;
    if BucketTotal(bucket, container) > 0 {
      var last := |row| - 1;
      assert forall k :: 0 <= k < last ==> row[..last][k] == row[k];
    } else {
      assert !row[0].h.Finite?;
    }
  }

  /** Two memes in a container of three pixels: the first row, of one meme, has no finite height. */
  lemma NarrowRowIsNotFinite() returns (memes: seq<Meme>, rows: seq<seq<Item>>, cuts: seq<nat>)
    ensures IsLayout(rows, cuts, memes, 3.0) && |rows| == 2 && !IsFiniteRow(rows[0])
  {
    var a, b := Meme("a", 1, 1), Meme("b", 1, 1);
    memes := [a, b];
    var first, second := Item(a, Finite(3.0), NotFinite, 0), Item(b, Finite(0.0), Finite(140.0), 1);
    rows, cuts := [[first], [second]], [0, 1, 2];
    NarrowMemes(a, b);
    hide Clamp, Naturals, Fits, BucketTotal;
    assert BucketOf(memes, 0, 1) == [(a, 0)] && BucketOf(memes, 1, 2) == [(b, 1)];
    assert IsClosedRow([first], memes, 3.0, 0, 1);
    assert rows[..1] == [[first]] && cuts[..2] == [0, 1];
    assert !first.h.Finite?;
  }

  lemma NarrowMemes(a: Meme, b: Meme)
    requires a == Meme("a", 1, 1) && b == Meme("b", 1, 1)
    ensures Clamp(a, 3.0) == Clamp(b, 3.0) == 0
    ensures BucketTotal([(a, 0)], 3.0) == 0
    ensures var ws := Naturals([a, b], 3.0); Fits(ws, 3.0, 0, 1) && Fits(ws, 3.0, 1, 2) && !Fits(ws, 3.0, 0, 2)
  {
    assert MaxItemWidth(3.0) == 0;
    var ws := Naturals([a, b], 3.0);
    assert Clamp(a, 3.0) == 0 && Clamp(b, 3.0) == 0;
    assert Total(ws, 0, 0) == 0 && Total(ws, 0, 1) == 0 && Total(ws, 1, 1) == 0;
    var bucket: Bucket := [(a, 0)];
    assert bucket[..0] == [];
  }

  /**
   Exactly when a meme gets a positive width: it is not thinner than half a pixel, and the container holds a pixel.
   */
  lemma WidthIsPositiveIff(m: Meme, container: real)
    requires container > 0.0
    ensures Clamp(m, container) > 0 <==>
            Ratio(m) * RowHeight(container) as real >= 0.5 && container * MaxFraction(container) >= 1.0
  {
  }
}
