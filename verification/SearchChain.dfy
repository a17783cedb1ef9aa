/**
 The resumable chain of searchers: a cursor names the searcher to resume and the sort key to resume after. An empty
 answer falls through to the next searcher, which then starts from its beginning.
 */
module SearchChain {
  import opened GoText
  import opened Entities
  import opened OffsetFormat
  import opened Paging

  /** What one searcher would list for the query at hand. A searcher without a cursor never resumes. */
  datatype Stage = Stage(name: Text, order: Order, docs: set<Doc>, resumable: bool)

  /** How sort values are written into cursors and how the index reads them back. */
  datatype KeyText = KeyText(write: int -> seq<Text>, read: seq<Text> -> int)

  type Cursor = PaginationOffset

  datatype Response = Response(data: seq<Doc>, next: Option<Cursor>)

  /** An empty key resumes nothing: the query is sent without search_after. */
  function ResumeRank(kt: KeyText, key: seq<Text>): Option<int> {
    if key == [] then None else Some(kt.read(key))
  }

  /** What a searcher may answer; `resumed` tells whether it got a sort key at all. */
  ghost predicate IsStagePage(s: Stage, after: Option<int>, resumed: bool, size: nat, page: seq<Doc>) {
    if s.resumable then IsPage(s.docs, s.order, after, size, page)
    else if resumed then page == []
    else multiset(page) == multiset(s.docs)
  }

  function StageCursor(kt: KeyText, s: Stage, page: seq<Doc>): Option<Cursor> {
    if s.resumable && page != [] then Some(PaginationOffset(s.name, kt.write(NextKey(s.order, page).value))) else None
  }

  /** The meaning of Search, one searcher at a time. */
  ghost predicate IsAnswer(kt: KeyText, chain: seq<Stage>, after: Option<Cursor>, size: nat, data: seq<Doc>,
                           next: Option<Cursor>) {
    if chain == [] then data == [] && next == None
    else if after.Some? && chain[0].name != after.value.searcher then
      IsAnswer(kt, chain[1..], after, size, data, next)
    else
      var rank := if after.Some? then ResumeRank(kt, after.value.sortingAfter) else None;
      || (data != [] && IsStagePage(chain[0], rank, rank.Some?, size, data) && next == StageCursor(kt, chain[0], data))
      || (IsStagePage(chain[0], rank, rank.Some?, size, []) && IsAnswer(kt, chain[1..], None, size, data, next))
  }

  /** The searcher a request begins with. */
  predicate Begins(chain: seq<Stage>, after: Option<Cursor>, from: nat)
    requires from < |chain|
  {
    if after.None? then from == 0
    else chain[from].name == after.value.searcher && forall j :: 0 <= j < from ==> chain[j].name != after.value.searcher
  }

  /** The sort key searcher j is given, if the request begins with searcher `from`. */
  function KeyFor(kt: KeyText, after: Option<Cursor>, from: nat, j: nat): Option<int> {
    if after.Some? && j == from then ResumeRank(kt, after.value.sortingAfter) else None
  }

  /** From the searcher the request begins with up to this one, those before have nothing to answer. */
  ghost predicate ReachedFrom(kt: KeyText, chain: seq<Stage>, after: Option<Cursor>, size: nat, from: nat, i: nat) {
    && from <= i < |chain| && Begins(chain, after, from)
    && forall j :: from <= j < i ==>
         var rank := KeyFor(kt, after, from, j); IsStagePage(chain[j], rank, rank.Some?, size, [])
  }

  ghost predicate Reached(kt: KeyText, chain: seq<Stage>, after: Option<Cursor>, size: nat, i: nat) {
    exists from :: ReachedFrom(kt, chain, after, size, from, i)
  }

  /** Whether a searcher has anything to answer does not depend on how the index breaks ties. */
  lemma AnswersOrNot(s: Stage, after: Option<int>, resumed: bool, size: nat, page: seq<Doc>)
    requires IsStagePage(s, after, resumed, size, page)
    ensures IsStagePage(s, after, resumed, size, []) ==> page == []
  {
    if s.resumable && IsPage(s.docs, s.order, after, size, []) {
      var some: seq<Doc> :| IsHits(s.docs, s.order, after, some) && page == Cut(size, some);
      var none: seq<Doc> :| IsHits(s.docs, s.order, after, none) && [] == Cut(size, none);
      assert |multiset(some)| == |some| && |multiset(none)| == |none|;
    }
    assert |multiset(page)| == |page|;
  }

  /** One searcher asked; the index or the embedder may fail. */
  method AskStage(kt: KeyText, s: Stage, sortKey: seq<Text>, size: nat, fails: bool)
    returns (r: Result<Response>)
    requires !s.resumable ==> |s.docs| <= 1
    ensures r.Ok? <==> !fails
    ensures r.Ok? ==>
              var rank := ResumeRank(kt, sortKey);
              IsStagePage(s, rank, rank.Some?, size, r.value.data) && r.value.next == StageCursor(kt, s, r.value.data)
  {
    if fails {
      return Err;
    }
    var page: seq<Doc> := [];
    if s.resumable {
      page := Query(s.docs, s.order, ResumeRank(kt, sortKey), size);
    } else if sortKey == [] && s.docs != {} {
      var d :| d in s.docs;
      page := [d];
      assert s.docs == {d} by {
        assert |s.docs - {d}| == 0;
      }
    }
    r := Ok(Response(page, StageCursor(kt, s, page)));
  }

  /** An error is answered exactly when the request gets to a searcher that fails. */
  method Search(kt: KeyText, searchers: seq<Stage>, afterId: Option<Cursor>, size: nat, failing: set<nat>)
    returns (r: Result<Response>)
    requires forall i :: 0 <= i < |searchers| && !searchers[i].resumable ==> |searchers[i].docs| <= 1
    ensures r.Ok? ==> IsAnswer(kt, searchers, afterId, size, r.value.data, r.value.next)
    ensures r.Err? <==> exists i :: i in failing && Reached(kt, searchers, afterId, size, i)
  {
    hide IsStagePage, StageCursor;
    var encounteredLastSearcher := afterId.None?;
    ghost var from := 0;
    assert searchers[0..] == searchers;
    for i := 0 to |searchers|
      invariant encounteredLastSearcher || afterId.Some?
      invariant forall data, next ::
                  IsAnswer(kt, searchers[i..], if encounteredLastSearcher then None else afterId, size, data, next)
                  ==> IsAnswer(kt, searchers, afterId, size, data, next)
      invariant !encounteredLastSearcher ==> forall j :: 0 <= j < i ==> searchers[j].name != afterId.value.searcher
      invariant encounteredLastSearcher && i > 0 ==>
                  from < i && Begins(searchers, afterId, from) && AllSilent(kt, searchers, afterId, size, from, i)
      invariant encounteredLastSearcher && i == 0 ==> afterId.None? && from == 0
      invariant forall k :: k in failing && k < i ==> !Reached(kt, searchers, afterId, size, k)
    {
      var searcher := searchers[i];
      assert searchers[i..][0] == searcher && searchers[i..][1..] == searchers[i + 1..];
      if !encounteredLastSearcher && searcher.name != afterId.value.searcher {
        NotReachedBefore(kt, searchers, afterId, size, i);
        continue;
      }
      var sortKey := [];
      if !encounteredLastSearcher && searcher.name == afterId.value.searcher {
        sortKey := afterId.value.sortingAfter;
        encounteredLastSearcher := true;
        from := i;
      }
      assert ReachedFrom(kt, searchers, afterId, size, from, i);
      var asked := AskStage(kt, searcher, sortKey, size, i in failing);
      if asked.Err? {
        return Err;
      }
      if |asked.value.data| > 0 {
        StopsHere(kt, searchers, afterId, size, from, i, asked.value.data);
        return asked;
      }
    }
    assert searchers[|searchers|..] == [];
    r := Ok(Response([], None));
  }

  ghost predicate AllSilent(kt: KeyText, chain: seq<Stage>, after: Option<Cursor>, size: nat, from: nat, to: nat)
    requires to <= |chain|
  {
    forall j :: from <= j < to ==>
      var rank := KeyFor(kt, after, from, j); IsStagePage(chain[j], rank, rank.Some?, size, [])
  }

  /** No searcher is asked before the one the cursor names. */
  lemma NotReachedBefore(kt: KeyText, chain: seq<Stage>, after: Option<Cursor>, size: nat, i: nat)
    requires i < |chain| && after.Some? && forall j :: 0 <= j <= i ==> chain[j].name != after.value.searcher
    ensures !Reached(kt, chain, after, size, i)
  {
  }

  /** No searcher is asked behind one that has something to answer. */
  lemma StopsHere(kt: KeyText, chain: seq<Stage>, after: Option<Cursor>, size: nat, from: nat, i: nat, data: seq<Doc>)
    requires ReachedFrom(kt, chain, after, size, from, i) && data != []
    requires var rank := KeyFor(kt, after, from, i); IsStagePage(chain[i], rank, rank.Some?, size, data)
    ensures forall k :: k > i ==> !Reached(kt, chain, after, size, k)
  {
    hide IsStagePage;
    var rank := KeyFor(kt, after, from, i);
    AnswersOrNot(chain[i], rank, rank.Some?, size, data);
    forall k: nat, other: nat | k > i
      ensures !ReachedFrom(kt, chain, after, size, other, k)
    {
      if other < |chain| && other != from {
        assert !Begins(chain, after, other);
      }
    }
  }
}
