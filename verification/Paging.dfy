/**
 Keyset paging over the metadata index: each query sorts by one field, returns the hits strictly after
 the cursor, cut at the page size, and the sort value of the last hit is the next cursor.
 */
module Paging {
  import opened GoText
  import opened Entities
  import opened Sorting

  /** The sort of a query. A relevance score, tie-broken by image id, is a fixed ranking here. */
  datatype Order = CreatedDesc | ImageIdAsc | Relevance(ranking: Doc -> int)

  /** Sort value, negated for descending orders, so that hits always come in ascending rank. */
  function Rank(o: Order, d: Doc): int {
    match o
    case CreatedDesc => -d.created
    case ImageIdAsc => d.imageId
    case Relevance(ranking) => ranking(d)
  }

  function RankBy(o: Order): Doc -> int {
    (d: Doc) => Rank(o, d)
  }

  predicate After(after: Option<int>, rank: int) {
    after.None? || after.value < rank
  }

  function Eligible(docs: set<Doc>, o: Order, after: Option<int>): set<Doc> {
    set d | d in docs && After(after, Rank(o, d))
  }

  /** An uncut answer. Hits with equal sort values come in any order. */
  ghost predicate IsHits(docs: set<Doc>, o: Order, after: Option<int>, hits: seq<Doc>) {
    multiset(hits) == multiset(Eligible(docs, o, after)) && SortedBy(RankBy(o), hits)
  }

  function Cut<T>(size: nat, hits: seq<T>): seq<T> {
    if |hits| <= size then hits else hits[..size]
  }

  ghost predicate IsPage(docs: set<Doc>, o: Order, after: Option<int>, size: nat, page: seq<Doc>) {
    exists hits :: IsHits(docs, o, after, hits) && page == Cut(size, hits)
  }

  /** The cursor a page hands out; a page without hits hands out none. */
  function NextKey(o: Order, page: seq<Doc>): Option<int> {
    if page == [] then None else Some(Rank(o, page[|page| - 1]))
  }

  /** One answered query: what the index held, already narrowed by the query's filters, and the page. */
  datatype Fetch = Fetch(docs: set<Doc>, page: seq<Doc>)

  /**
   A finished walk: it goes on while pages are full. The index may change arbitrarily between fetches.
   */
  ghost predicate IsWalk(o: Order, size: nat, after: Option<int>, walk: seq<Fetch>)
    decreases |walk|
  {
    && walk != []
    && IsPage(walk[0].docs, o, after, size, walk[0].page)
    && if |walk[0].page| < size then |walk| == 1
       else IsWalk(o, size, NextKey(o, walk[0].page), walk[1..])
  }

  function Visited(walk: seq<Fetch>): seq<Doc> {
    if walk == [] then [] else walk[0].page + Visited(walk[1..])
  }

  /** How many times a walk handed out the document with this id. */
  function Visits(docs: seq<Doc>, id: Id): nat {
    if docs == [] then 0 else (if docs[0].imageId == id then 1 else 0) + Visits(docs[1..], id)
  }

  /** A query as the index answers it, ties in any order. */
  method Query(docs: set<Doc>, o: Order, after: Option<int>, size: nat) returns (page: seq<Doc>)
    ensures IsPage(docs, o, after, size, page)
  {
    var rest := Eligible(docs, o, after);
    var hits: seq<Doc> := [];
    while rest != {}
      invariant rest <= Eligible(docs, o, after)
      invariant multiset(hits) == multiset(Eligible(docs, o, after) - rest)
      decreases |rest|
    {
      var d :| d in rest;
      assert Eligible(docs, o, after) - (rest - {d}) == (Eligible(docs, o, after) - rest) + {d};
      hits := hits + [d];
      rest := rest - {d};
    }
    assert Eligible(docs, o, after) - {} == Eligible(docs, o, after);
    var sorted := SortFunc(RankBy(o), hits);
    assert IsHits(docs, o, after, sorted);
    page := Cut(size, sorted);
  }

  // ------------------------------------------------------------------ facts about one page

  lemma HitsAreDistinct(docs: set<Doc>, o: Order, after: Option<int>, hits: seq<Doc>)
    requires IsHits(docs, o, after, hits)
    ensures |hits| == |Eligible(docs, o, after)|
    ensures forall d :: d in hits <==> d in docs && After(after, Rank(o, d))
    ensures forall i, j :: 0 <= i < j < |hits| ==> hits[i] != hits[j]
  {
    assert |multiset(hits)| == |hits|;
    assert forall d :: d in hits <==> d in multiset(hits);
    forall i, j | 0 <= i < j < |hits|
      ensures hits[i] != hits[j]
    {
      assert hits == hits[..i] + [hits[i]] + hits[i + 1..j] + [hits[j]] + hits[j + 1..];
      assert multiset(hits)[hits[i]] <= 1;
    }
  }

  lemma {:induction false} VisitsOfConcatenation(a: seq<Doc>, b: seq<Doc>, id: Id)
    ensures Visits(a + b, id) == Visits(a, id) + Visits(b, id)
  {
    if a == [] {
      assert a + b == b;
    } else {
      VisitsOfConcatenation(a[1..], b, id);
      assert (a + b)[1..] == a[1..] + b;
    }
  }

  lemma {:induction false} NoVisits(docs: seq<Doc>, id: Id)
    requires forall i :: 0 <= i < |docs| ==> docs[i].imageId != id
    ensures Visits(docs, id) == 0
  {
    if docs != [] {
      NoVisits(docs[1..], id);
    }
  }

  lemma OneVisit(docs: seq<Doc>, id: Id, at: nat)
    requires at < |docs| && docs[at].imageId == id
    requires forall i :: 0 <= i < |docs| && i != at ==> docs[i].imageId != id
    ensures Visits(docs, id) == 1
  {
    assert docs == docs[..at] + ([docs[at]] + docs[at + 1..]);
    NoVisits(docs[..at], id);
    NoVisits(docs[at + 1..], id);
    VisitsOfConcatenation(docs[..at], [docs[at]] + docs[at + 1..], id);
  }

  // ------------------------------------------------------------------ a document that stays is visited once

  /** The document is there, with this sort value, and nothing else has its id or its sort value. */
  ghost predicate Stays(docs: set<Doc>, o: Order, id: Id, rank: int) {
    && (exists d :: d in docs && d.imageId == id && Rank(o, d) == rank)
    && (forall d, e :: d in docs && e in docs && Claims(o, d, id, rank) && Claims(o, e, id, rank) ==> d == e)
  }

  predicate Claims(o: Order, d: Doc, id: Id, rank: int) {
    d.imageId == id || Rank(o, d) == rank
  }

  /** The document at a known place among the hits is on the page, and only there, if the cut leaves it. */
  lemma VisitsOfHit(o: Order, size: nat, hits: seq<Doc>, at: nat)
    requires at < |hits| && SortedBy(RankBy(o), hits) && size >= 1
    requires forall i :: 0 <= i < |hits| && i != at ==> !Claims(o, hits[i], hits[at].imageId, Rank(o, hits[at]))
    ensures var page := Cut(size, hits);
            && Visits(page, hits[at].imageId) == (if at < |page| then 1 else 0)
            && (|page| == size ==> (at < |page| <==> !After(NextKey(o, page), Rank(o, hits[at]))))
            && (|page| < size ==> at < |page|)
  {
    var page := Cut(size, hits);
    assert forall i :: 0 <= i < |hits| ==> RankBy(o)(hits[i]) == Rank(o, hits[i]);
    if at < |page| {
      OneVisit(page, hits[at].imageId, at);
    } else {
      NoVisits(page, hits[at].imageId);
    }
  }

  lemma StayingAmongHits(docs: set<Doc>, o: Order, after: Option<int>, hits: seq<Doc>, id: Id, rank: int)
    requires IsHits(docs, o, after, hits) && Stays(docs, o, id, rank)
    ensures !After(after, rank) ==> forall i :: 0 <= i < |hits| ==> hits[i].imageId != id
    ensures After(after, rank) ==> exists at :: 0 <= at < |hits| && hits[at].imageId == id && Rank(o, hits[at]) == rank
    ensures forall i, j :: 0 <= i < |hits| && 0 <= j < |hits| && i != j && Claims(o, hits[i], id, rank)
              ==> !Claims(o, hits[j], id, rank)
  {
    HitsAreDistinct(docs, o, after, hits);
    var d :| d in docs && d.imageId == id && Rank(o, d) == rank;
    assert Claims(o, d, id, rank);
    assert After(after, rank) ==> d in hits;
    forall i | 0 <= i < |hits| && Claims(o, hits[i], id, rank)
      ensures hits[i] == d
    {
      assert hits[i] in docs;
    }
  }

  lemma PageOfStaying(docs: set<Doc>, o: Order, after: Option<int>, size: nat, page: seq<Doc>, id: Id, rank: int)
    requires size >= 1 && IsPage(docs, o, after, size, page) && Stays(docs, o, id, rank)
    ensures !After(after, rank) ==> Visits(page, id) == 0
    ensures After(after, rank) && |page| < size ==> Visits(page, id) == 1
    ensures After(after, rank) && |page| == size ==>
              Visits(page, id) == if After(NextKey(o, page), rank) then 0 else 1
  {
    var hits: seq<Doc> :| IsHits(docs, o, after, hits) && page == Cut(size, hits);
    StayingAmongHits(docs, o, after, hits, id, rank);
    if After(after, rank) {
      var at: int :| 0 <= at < |hits| && hits[at].imageId == id && Rank(o, hits[at]) == rank;
      VisitsOfHit(o, size, hits, at);
    } else {
      NoVisits(page, id);
    }
  }

  /** A full page moves the cursor strictly forward. */
  lemma CursorAdvances(docs: set<Doc>, o: Order, after: Option<int>, size: nat, page: seq<Doc>)
    requires size >= 1 && IsPage(docs, o, after, size, page)
    ensures |page| <= size
    ensures page != [] ==> After(after, NextKey(o, page).value)
  {
    var hits: seq<Doc> :| IsHits(docs, o, after, hits) && page == Cut(size, hits);
    HitsAreDistinct(docs, o, after, hits);
    if page != [] {
      assert page[|page| - 1] in hits;
    }
  }

  /**
   Whatever else is added, rewritten or removed between the pages, a document that stays, with a sort value
   of its own, is handed out exactly once; one already behind the cursor is not handed out again.
   */
  lemma {:induction false} StayingIsVisitedOnce(o: Order, size: nat, after: Option<int>, walk: seq<Fetch>, id: Id,
                                                rank: int)
    requires size >= 1 && IsWalk(o, size, after, walk)
    requires forall i :: 0 <= i < |walk| ==> Stays(walk[i].docs, o, id, rank)
    ensures Visits(Visited(walk), id) == if After(after, rank) then 1 else 0
    decreases |walk|
  {
    var page := walk[0].page;
    CursorAdvances(walk[0].docs, o, after, size, page);
    PageOfStaying(walk[0].docs, o, after, size, page, id, rank);
    if |page| < size {
      assert walk[1..] == [] && page + [] == page;
    } else {
      StayingIsVisitedOnce(o, size, NextKey(o, page), walk[1..], id, rank);
      VisitsOfConcatenation(page, Visited(walk[1..]), id);
    }
  }

  // ------------------------------------------------------------------ which walks are complete

  /**
   Between the fetches nothing changed ahead of the cursor; what lies behind it may have been rewritten or deleted.
   */
  ghost predicate Undisturbed(docs: set<Doc>, o: Order, after: Option<int>, walk: seq<Fetch>)
    decreases |walk|
  {
    walk == []
    || (Eligible(walk[0].docs, o, after) == Eligible(docs, o, after)
        && Undisturbed(docs, o, NextKey(o, walk[0].page), walk[1..]))
  }

  ghost predicate IsUndisturbedWalk(docs: set<Doc>, o: Order, size: nat, after: Option<int>, walk: seq<Fetch>) {
    IsWalk(o, size, after, walk) && Undisturbed(docs, o, after, walk)
  }

  /** No page boundary falls between two documents with the same sort value. */
  predicate NoTieCut(o: Order, size: nat, hits: seq<Doc>)
    requires size >= 1
  {
    |hits| <= size || (Rank(o, hits[size - 1]) != Rank(o, hits[size]) && NoTieCut(o, size, hits[size..]))
  }

  ghost predicate DistinctRanks(o: Order, docs: set<Doc>) {
    forall d, e :: d in docs && e in docs && Rank(o, d) == Rank(o, e) ==> d == e
  }

  /** Unfolds a walk once: a short first page is all the hits, a full one leaves a walk behind its last hit. */
  lemma FirstPage(docs: set<Doc>, o: Order, size: nat, after: Option<int>, walk: seq<Fetch>) returns (h: seq<Doc>)
    requires size >= 1 && IsUndisturbedWalk(docs, o, size, after, walk)
    ensures IsHits(docs, o, after, h)
    ensures |h| < size ==> Visited(walk) == h && |walk| == 1
    ensures |h| >= size ==>
              && |walk| > 1
              && IsUndisturbedWalk(docs, o, size, Some(Rank(o, h[size - 1])), walk[1..])
              && Visited(walk) == h[..size] + Visited(walk[1..])
    ensures walk[0].page == Cut(size, h)
  {
    h :| IsHits(walk[0].docs, o, after, h) && walk[0].page == Cut(size, h);
    assert h[..|h|] == h;
    if |h| < size {
      assert Visited(walk) == h + [];
    } else {
      assert IsWalk(o, size, NextKey(o, walk[0].page), walk[1..]);
      assert walk[1..] != [];
    }
  }

  lemma EligibleOrder(docs: set<Doc>, o: Order, after: Option<int>, h: seq<Doc>)
    requires IsHits(docs, o, after, h)
    ensures forall i, j :: 0 <= i < j < |h| ==> Rank(o, h[i]) <= Rank(o, h[j])
    ensures forall i :: 0 <= i < |h| ==> h[i] in docs && After(after, Rank(o, h[i]))
  {
    HitsAreDistinct(docs, o, after, h);
    assert forall i :: 0 <= i < |h| ==> RankBy(o)(h[i]) == Rank(o, h[i]);
  }

  /** The documents strictly after position `size` of the hits, when no tie is cut there. */
  lemma TailIsHits(docs: set<Doc>, o: Order, after: Option<int>, hits: seq<Doc>, size: nat)
    requires IsHits(docs, o, after, hits) && 1 <= size <= |hits|
    requires |hits| > size ==> Rank(o, hits[size - 1]) != Rank(o, hits[size])
    ensures IsHits(docs, o, Some(Rank(o, hits[size - 1])), hits[size..])
    ensures multiset(hits) == multiset(hits[..size]) + multiset(hits[size..])
  {
    hide IsHits;
    var k := Rank(o, hits[size - 1]);
    assert hits == hits[..size] + hits[size..];
    var tail := hits[size..];
    TailElements(docs, o, after, hits, size);
    HitsAreDistinct(docs, o, after, hits);
    DistinctMultiset(tail, Eligible(docs, o, Some(k)));
    EligibleOrder(docs, o, after, hits);
    MakeHits(docs, o, Some(k), tail);
  }

  lemma HitsMultiset(docs: set<Doc>, o: Order, after: Option<int>, h: seq<Doc>)
    requires IsHits(docs, o, after, h)
    ensures multiset(h) == multiset(Eligible(docs, o, after))
  {
  }

  lemma MakeHits(docs: set<Doc>, o: Order, after: Option<int>, h: seq<Doc>)
    requires multiset(h) == multiset(Eligible(docs, o, after))
    requires forall i, j :: 0 <= i < j < |h| ==> Rank(o, h[i]) <= Rank(o, h[j])
    ensures IsHits(docs, o, after, h)
  {
  }

  lemma TailElements(docs: set<Doc>, o: Order, after: Option<int>, hits: seq<Doc>, size: nat)
    requires IsHits(docs, o, after, hits) && 1 <= size <= |hits|
    requires |hits| > size ==> Rank(o, hits[size - 1]) != Rank(o, hits[size])
    ensures forall d :: d in hits[size..] <==> d in Eligible(docs, o, Some(Rank(o, hits[size - 1])))
  {
    var k := Rank(o, hits[size - 1]);
    HitsAreDistinct(docs, o, after, hits);
    EligibleOrder(docs, o, after, hits);
    var tail := hits[size..];
    forall d | d in Eligible(docs, o, Some(k))
      ensures d in tail
    {
      assert d in hits;
      var i: int :| 0 <= i < |hits| && hits[i] == d;
      assert i >= size && tail[i - size] == d;
    }
  }

  lemma SubsetSize<T>(a: set<T>, b: set<T>)
    requires a <= b
    ensures |a| <= |b|
  {
    assert b == a + (b - a);
  }

  lemma {:induction false} DistinctMultiset(s: seq<Doc>, e: set<Doc>)
    requires forall i, j :: 0 <= i < j < |s| ==> s[i] != s[j]
    requires forall d :: d in s <==> d in e
    ensures multiset(s) == multiset(e)
  {
    if s != [] {
      assert s == [s[0]] + s[1..];
      forall d
        ensures d in s[1..] <==> d in e - {s[0]}
      {
        assert d in s <==> d == s[0] || d in s[1..];
      }
      DistinctMultiset(s[1..], e - {s[0]});
      assert multiset(e) == multiset(e - {s[0]}) + multiset{s[0]};
    }
  }

  lemma {:induction false} VisitedAreAhead(docs: set<Doc>, o: Order, size: nat, after: Option<int>, walk: seq<Fetch>)
    requires size >= 1 && IsUndisturbedWalk(docs, o, size, after, walk)
    ensures forall i :: 0 <= i < |Visited(walk)| ==> Visited(walk)[i] in docs && After(after, Rank(o, Visited(walk)[i]))
    decreases |walk|
  {
    hide Visited, IsUndisturbedWalk, IsHits;
    var h := FirstPage(docs, o, size, after, walk);
    EligibleOrder(docs, o, after, h);
    if |h| >= size {
      VisitedAreAhead(docs, o, size, Some(Rank(o, h[size - 1])), walk[1..]);
    }
  }

  lemma RanksAgree(docs: set<Doc>, o: Order, after: Option<int>, h: seq<Doc>, hits: seq<Doc>)
    requires IsHits(docs, o, after, h) && IsHits(docs, o, after, hits)
    ensures |h| == |hits| && forall i :: 0 <= i < |h| ==> Rank(o, h[i]) == Rank(o, hits[i])
  {
    SortsAgreeOnKeys(RankBy(o), h, hits);
    assert forall i :: 0 <= i < |h| ==> RankBy(o)(h[i]) == RankBy(o)(hits[i]);
  }

  /** The first document behind a boundary that cuts a tie is never handed out. */
  lemma TieIsMissed(docs: set<Doc>, o: Order, size: nat, after: Option<int>, walk: seq<Fetch>, h: seq<Doc>)
    requires size >= 1 && |h| > size && IsHits(docs, o, after, h)
    requires |walk| > 1 && IsUndisturbedWalk(docs, o, size, Some(Rank(o, h[size - 1])), walk[1..])
    requires Visited(walk) == h[..size] + Visited(walk[1..])
    requires Rank(o, h[size - 1]) == Rank(o, h[size])
    ensures h[size] in Eligible(docs, o, after) && h[size] !in Visited(walk)
  {
    hide Visited, IsUndisturbedWalk;
    HitsAreDistinct(docs, o, after, h);
    VisitedAreAhead(docs, o, size, Some(Rank(o, h[size - 1])), walk[1..]);
  }

  lemma Cancel(a: multiset<Doc>, b: multiset<Doc>, c: multiset<Doc>)
    ensures a + b == a + c <==> b == c
  {
    assert (a + b) - a == b && (a + c) - a == c;
  }

  lemma StepIsComplete(docs: set<Doc>, o: Order, after: Option<int>, h: seq<Doc>, size: nat, rest: seq<Doc>)
    requires IsHits(docs, o, after, h) && 1 <= size <= |h|
    requires |h| > size ==> Rank(o, h[size - 1]) != Rank(o, h[size])
    ensures multiset(h[..size] + rest) == multiset(Eligible(docs, o, after))
       <==> multiset(rest) == multiset(Eligible(docs, o, Some(Rank(o, h[size - 1]))))
  {
    TailIsHits(docs, o, after, h, size);
    Cancel(multiset(h[..size]), multiset(rest), multiset(h[size..]));
  }

  /**
   A walk nothing disturbs visits everything, each document once, exactly when no page boundary cuts a tie.
   */
  lemma {:induction false} WalkIsComplete(docs: set<Doc>, o: Order, size: nat, after: Option<int>, walk: seq<Fetch>,
                                          hits: seq<Doc>)
    requires size >= 1 && IsUndisturbedWalk(docs, o, size, after, walk)
    requires IsHits(docs, o, after, hits)
    ensures multiset(Visited(walk)) == multiset(Eligible(docs, o, after)) <==> NoTieCut(o, size, hits)
    decreases |walk|
  {
    hide Visited, IsUndisturbedWalk, IsHits, Eligible;
    var h := FirstPage(docs, o, size, after, walk);
    RanksAgree(docs, o, after, h, hits);
    if |h| < size {
      assert multiset(h) == multiset(Eligible(docs, o, after)) by { HitsMultiset(docs, o, after, h); }
    } else {
      if |h| > size && Rank(o, h[size - 1]) == Rank(o, h[size]) {
        TieIsMissed(docs, o, size, after, walk, h);
        assert h[size] in multiset(Eligible(docs, o, after)) && h[size] !in multiset(Visited(walk));
      } else {
        StepIsComplete(docs, o, after, h, size, Visited(walk[1..]));
        TailIsHits(docs, o, after, hits, size);
        WalkIsComplete(docs, o, size, Some(Rank(o, h[size - 1])), walk[1..], hits[size..]);
      }
    }
  }

  lemma OnePageMore(size: nat, pages: nat)
    requires pages >= 1
    ensures size * pages == size * (pages - 1) + size
  {
  }

  /** Without cut ties the number of fetches is the number of full pages plus one. */
  lemma {:induction false} WalkLength(docs: set<Doc>, o: Order, size: nat, after: Option<int>, walk: seq<Fetch>,
                                      hits: seq<Doc>)
    requires size >= 1 && IsUndisturbedWalk(docs, o, size, after, walk)
    requires IsHits(docs, o, after, hits) && NoTieCut(o, size, hits)
    ensures size * (|walk| - 1) <= |hits| < size * |walk|
    decreases |walk|
  {
    hide IsUndisturbedWalk, IsHits, Visited;
    var h := FirstPage(docs, o, size, after, walk);
    RanksAgree(docs, o, after, h, hits);
    if |h| >= size {
      TailIsHits(docs, o, after, hits, size);
      WalkLength(docs, o, size, Some(Rank(o, h[size - 1])), walk[1..], hits[size..]);
      OnePageMore(size, |walk|);
      OnePageMore(size, |walk| - 1);
    } else {
      OnePageMore(size, 1);
    }
  }

  lemma {:induction false} DistinctRanksCutNoTie(o: Order, size: nat, hits: seq<Doc>)
    requires size >= 1
    requires forall i, j :: 0 <= i < j < |hits| ==> Rank(o, hits[i]) != Rank(o, hits[j])
    ensures NoTieCut(o, size, hits)
  {
    if |hits| > size {
      DistinctRanksCutNoTie(o, size, hits[size..]);
    }
  }

  lemma {:induction false} VisitedAreSorted(docs: set<Doc>, o: Order, size: nat, after: Option<int>, walk: seq<Fetch>)
    requires size >= 1 && IsUndisturbedWalk(docs, o, size, after, walk)
    ensures var v := Visited(walk); forall i, j :: 0 <= i < j < |v| ==> Rank(o, v[i]) <= Rank(o, v[j])
    decreases |walk|
  {
    hide Visited, IsUndisturbedWalk, IsHits;
    var h := FirstPage(docs, o, size, after, walk);
    EligibleOrder(docs, o, after, h);
    if |h| >= size {
      VisitedAreSorted(docs, o, size, Some(Rank(o, h[size - 1])), walk[1..]);
      VisitedAreAhead(docs, o, size, Some(Rank(o, h[size - 1])), walk[1..]);
    }
  }

  /** With a sort value of its own for every document, an undisturbed walk yields the one sorted listing. */
  lemma WalkYieldsListing(docs: set<Doc>, o: Order, size: nat, after: Option<int>, walk: seq<Fetch>, hits: seq<Doc>)
    requires size >= 1 && IsUndisturbedWalk(docs, o, size, after, walk)
    requires IsHits(docs, o, after, hits) && DistinctRanks(o, docs)
    ensures Visited(walk) == hits
    ensures size * (|walk| - 1) <= |hits| < size * |walk|
  {
    hide Visited, IsUndisturbedWalk;
    HitsAreDistinct(docs, o, after, hits);
    assert forall i, j :: 0 <= i < j < |hits| ==> hits[i] in docs && hits[j] in docs && hits[i] != hits[j];
    DistinctRanksCutNoTie(o, size, hits);
    WalkIsComplete(docs, o, size, after, walk, hits);
    WalkLength(docs, o, size, after, walk, hits);
    VisitedAreSorted(docs, o, size, after, walk);
    var v := Visited(walk);
    assert SortedBy(RankBy(o), v);
    assert DistinctKeys(RankBy(o), v) by {
      assert forall d :: d in multiset(v) ==> d in docs && RankBy(o)(d) == Rank(o, d);
    }
    SortsAgree(RankBy(o), v, hits);
  }
}
