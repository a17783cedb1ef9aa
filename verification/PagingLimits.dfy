/** Documents created at the same time that a page boundary separates: for every page size, one of them is lost. */
module PagingLimits {
  import opened GoText
  import opened Entities
  import opened OffsetFormat
  import opened Paging
  import opened SearchChain
  import opened Sessions
  import opened TelegramListing
  import opened Library
  import LibraryState
  import LibraryRuns

  /** Document number i of an account whose documents were all created at once. */
  function TiedDoc(i: nat): Doc {
    Doc(i, i, 0, "", "", None, None, 0, 0, [], Image, None, [], false)
  }

  function TiedDocs(n: nat): set<Doc> {
    set i: nat | i < n :: TiedDoc(i)
  }

  function TiedHits(n: nat): (hits: seq<Doc>)
    ensures |hits| == n
  {
    seq(n, i requires 0 <= i < n => TiedDoc(i))
  }

  lemma TiedHitsAreHits(n: nat)
    ensures IsHits(TiedDocs(n), CreatedDesc, None, TiedHits(n))
  {
    var hits := TiedHits(n);
    forall d
      ensures d in hits <==> d in TiedDocs(n)
    {
      if d in TiedDocs(n) {
        var i: nat :| i < n && d == TiedDoc(i);
        assert hits[i] == d;
      }
    }
    assert Eligible(TiedDocs(n), CreatedDesc, None) == TiedDocs(n);
    assert forall i :: 0 <= i < n ==> hits[i].imageId == i;
    DistinctMultiset(hits, TiedDocs(n));
  }

  lemma NothingBehind(n: nat)
    ensures IsHits(TiedDocs(n), CreatedDesc, Some(0), [])
  {
    assert Eligible(TiedDocs(n), CreatedDesc, Some(0)) == {};
  }

  /** The pages of a listing of one document more than fits a page. */
  function TiedWalk(size: nat): seq<Fetch> {
    [Fetch(TiedDocs(size + 1), TiedHits(size + 1)[..size]), Fetch(TiedDocs(size + 1), [])]
  }

  lemma TiedPages(size: nat)
    requires size >= 1
    ensures IsPage(TiedDocs(size + 1), CreatedDesc, None, size, TiedHits(size + 1)[..size])
    ensures NextKey(CreatedDesc, TiedHits(size + 1)[..size]) == Some(0)
    ensures IsPage(TiedDocs(size + 1), CreatedDesc, Some(0), size, [])
  {
    TiedHitsAreHits(size + 1);
    NothingBehind(size + 1);
    hide IsHits;
    assert TiedHits(size + 1)[..size] == Cut(size, TiedHits(size + 1));
    var none: seq<Doc> := [];
    assert none == Cut(size, none);
  }

  lemma LastIsNotVisited(size: nat)
    ensures Visited(TiedWalk(size)) == TiedHits(size + 1)[..size]
    ensures TiedDoc(size) in TiedDocs(size + 1) && TiedDoc(size) !in Visited(TiedWalk(size))
  {
    var walk := TiedWalk(size);
    assert walk[1..] == [walk[1]] && walk[1..][1..] == [];
    assert Visited(walk[1..]) == [] + [];
    forall d | d in TiedHits(size + 1)[..size]
      ensures d.imageId != size
    {
      var i: int :| 0 <= i < size && TiedHits(size + 1)[i] == d;
    }
  }

  /** For every page size: a walk nothing disturbs that misses a document. */
  lemma TieIsLost(size: nat)
    requires size >= 1
    ensures IsUndisturbedWalk(TiedDocs(size + 1), CreatedDesc, size, None, TiedWalk(size))
    ensures TiedDoc(size) in TiedDocs(size + 1) && TiedDoc(size) !in Visited(TiedWalk(size))
  {
    hide IsPage, Eligible, NextKey;
    TiedPages(size);
    LastIsNotVisited(size);
    var walk := TiedWalk(size);
    assert walk[1..] == [walk[1]] && walk[1..][1..] == [];
    assert IsWalk(CreatedDesc, size, Some(0), walk[1..]);
    assert Undisturbed(TiedDocs(size + 1), CreatedDesc, Some(0), walk[1..]);
  }

  // ---------------------------------------------------------------- the same in a session

  lemma TiedCursor()
    ensures var c := PaginationOffset(ALL_SEARCHER, DECIMAL_KEYS.write(0));
            && Token(Some(c)) != [] && Offset(Token(Some(c))).Some?
            && Offset(Token(Some(c))).value.searcher == ALL_SEARCHER
            && CursorRank(DECIMAL_KEYS, Offset(Token(Some(c)))) == Some(0)
  {
    hide KeyTravels, Token, Offset, ResumeRank, CreatedText, ReadCreated;
    DecimalKeysTravel(0);
    TokenOfCursor(DECIMAL_KEYS, ALL_SEARCHER, 0);
  }

  /** The chain for the empty query answers what its last searcher answers. */
  lemma LastSearcherAnswers(kt: KeyText, docs: set<Doc>, cursor: Option<Cursor>, size: nat, page: seq<Doc>)
    requires cursor.Some? ==> cursor.value.searcher == ALL_SEARCHER
    requires IsPage(docs, CreatedDesc, CursorRank(kt, cursor), size, page)
    ensures IsAnswer(kt, EmptyQueryChain(docs), cursor, size, page, StageCursor(kt, EmptyQueryChain(docs)[2], page))
  {
    hide IsPage, NextKey;
    NamesAreDistinct();
    var chain := EmptyQueryChain(docs);
    var next := StageCursor(kt, chain[2], page);
    assert chain[1..] == [chain[1], chain[2]] && chain[1..][1..] == [chain[2]] && [chain[2]][1..] == [];
    LastAlone(kt, chain[2], cursor, size, page);
    NoHitsOnPage(Relevance(d => 0), size);
    assert IsAnswer(kt, chain[1..], cursor, size, page, next);
  }

  lemma LastAlone(kt: KeyText, s: Stage, cursor: Option<Cursor>, size: nat, page: seq<Doc>)
    requires s.resumable && (cursor.Some? ==> cursor.value.searcher == s.name)
    requires IsPage(s.docs, s.order, CursorRank(kt, cursor), size, page)
    ensures IsAnswer(kt, [s], cursor, size, page, StageCursor(kt, s, page))
  {
    hide IsPage, NextKey;
    assert [s][1..] == [];
  }

  lemma NoHitsOnPage(o: Order, size: nat)
    ensures IsPage({}, o, None, size, [])
  {
    NothingHits(o, None);
    var none: seq<Doc> := [];
    assert none == Cut(size, none);
  }

  /** For every page size: an inline session over an index at rest that never shows a document of the account. */
  lemma SessionLosesTie(size: nat)
    requires size >= 1
    ensures IsTelegramSession(DECIMAL_KEYS, size, [], TiedWalk(size)) && AtRest(TiedDocs(size + 1), TiedWalk(size))
    ensures TiedDoc(size) in TiedDocs(size + 1) && TiedDoc(size) !in Visited(TiedWalk(size))
  {
    hide IsPage, IsAnswer, NextKey, Offset, Token;
    TiedPages(size);
    LastIsNotVisited(size);
    TiedCursor();
    EmptyTokenResumesNothing(DECIMAL_KEYS);
    var walk, docs := TiedWalk(size), TiedDocs(size + 1);
    var cursor := PaginationOffset(ALL_SEARCHER, DECIMAL_KEYS.write(0));
    var back := Token(Some(cursor));
    assert walk[1..] == [walk[1]];
    NoCursorAtStart(DECIMAL_KEYS);
    LastSearcherAnswers(DECIMAL_KEYS, docs, Offset([]), size, walk[0].page);
    LastSearcherAnswers(DECIMAL_KEYS, docs, Offset(back), size, []);
    assert IsTelegramSession(DECIMAL_KEYS, size, back, walk[1..]) by {
      assert NextToken(size, [], None) == [];
    }
    assert NextToken(size, walk[0].page, Some(cursor)) == back;
  }

  // ---------------------------------------------------------------- the same in DeleteAll

  function TiedIndex(n: nat): map<Id, Doc> {
    map i: nat | i < n :: TiedDoc(i)
  }

  lemma TiedAccount(n: nat)
    ensures AccountDocs(TiedIndex(n), 0) == TiedDocs(n) && LibraryRuns.Keyed(LibraryState.State(TiedIndex(n), map[]))
  {
    forall d | d in TiedDocs(n)
      ensures d in AccountDocs(TiedIndex(n), 0)
    {
      var i: nat :| i < n && d == TiedDoc(i);
      assert i in TiedIndex(n) && TiedIndex(n)[i] == d;
    }
  }

  /** An account of 101 documents created at once: deleting it page by page leaves one of them. */
  lemma DeleteAllLeavesTie()
    ensures var st := LibraryState.State(TiedIndex(101), map[]);
            && LibraryRuns.Keyed(st)
            && IsUndisturbedWalk(AccountDocs(st.index, 0), CreatedDesc, 100, None, TiedWalk(100))
            && AccountDocs(Surviving(st.index, Visited(TiedWalk(100)), {}), 0) != {}
  {
    hide IsUndisturbedWalk, Visited, TiedWalk;
    TiedAccount(101);
    TieIsLost(100);
    assert 100 in TiedIndex(101) && TiedIndex(101)[100] == TiedDoc(100);
    Survivor(TiedIndex(101), Visited(TiedWalk(100)), 0, 100);
  }
}
