/**
 The listings users page through: the searchers the storage service registers, and the inline sessions of the telegram
 service, whose only memory between requests is the token in the client's hands.
 */
module TelegramListing {
  import opened GoText
  import opened Entities
  import opened OffsetFormat
  import opened Paging
  import opened SearchChain
  import opened Sessions
  import Base64
  import DecimalText
  import UuidText

  const ID_SEARCHER := Ascii("id_searcher")
  const HYBRID_SEARCHER := Ascii("hybrid_searcher")
  const ALL_SEARCHER := Ascii("all_searcher")

  /**
   The chain for one query. The first two searchers answer nothing to the empty query, the last nothing to any other;
   byId is the document the query names, ranked the documents it matches, all the documents of the accounts.
   */
  function ChainFor(query: Text, byId: set<Doc>, ranking: Doc -> int, ranked: set<Doc>,
                    all: set<Doc>): (chain: seq<Stage>)
    ensures |chain| == 3
  {
    [Stage(ID_SEARCHER, ImageIdAsc, if query == [] then {} else byId, false),
     Stage(HYBRID_SEARCHER, Relevance(ranking), if query == [] then {} else ranked, true),
     Stage(ALL_SEARCHER, CreatedDesc, if query == [] then all else {}, true)]
  }

  lemma NamesAreDistinct()
    ensures ID_SEARCHER != HYBRID_SEARCHER && ID_SEARCHER != ALL_SEARCHER && HYBRID_SEARCHER != ALL_SEARCHER
    ensures |ALL_SEARCHER| == 12
  {
  }

  /** What following cursors should list: the named document alone, else the matches by relevance, else everything. */
  ghost predicate IsExpected(query: Text, byId: set<Doc>, ranking: Doc -> int, ranked: set<Doc>, all: set<Doc>,
                             out: seq<Doc>) {
    if query == [] then IsHits(all, CreatedDesc, None, out)
    else if byId != {} then multiset(out) == multiset(byId)
    else IsHits(ranked, Relevance(ranking), None, out)
  }

  lemma NothingHits(o: Order, after: Option<int>)
    ensures IsHits({}, o, after, [])
  {
    assert Eligible({}, o, after) == {};
  }

  lemma SingleListing(s: Stage, out: seq<Doc>)
    requires s.resumable && IsHits(s.docs, s.order, None, out)
    ensures IsListing([s], None, out)
  {
    assert IsListing([s][1..], None, []);
    assert out == out + [];
  }

  lemma ListingPastEmpty(s: Stage, chain: seq<Stage>, out: seq<Doc>)
    requires s.docs == {} && IsListing(chain, None, out)
    ensures IsListing([s] + chain, None, out)
  {
    assert ([s] + chain)[1..] == chain;
    NothingHits(s.order, None);
    assert out == [] + out;
  }

  lemma ListingBeforeEmpty(s: Stage, t: Stage, out: seq<Doc>)
    requires s.resumable && t.resumable && t.docs == {} && IsHits(s.docs, s.order, None, out)
    ensures IsListing([s, t], None, out)
  {
    NothingHits(t.order, None);
    SingleListing(t, []);
    assert [s, t][1..] == [t];
    assert out == out + [];
  }

  lemma ExpectedIsListing(query: Text, byId: set<Doc>, ranking: Doc -> int, ranked: set<Doc>, all: set<Doc>,
                          out: seq<Doc>)
    requires IsExpected(query, byId, ranking, ranked, all, out)
    ensures IsListing(ChainFor(query, byId, ranking, ranked, all), None, out)
  {
    hide IsListing;
    var chain := ChainFor(query, byId, ranking, ranked, all);
    assert chain == [chain[0]] + [chain[1], chain[2]];
    assert [chain[1], chain[2]] == [chain[1]] + [chain[2]];
    if query == [] {
      SingleListing(chain[2], out);
      ListingPastEmpty(chain[1], [chain[2]], out);
      ListingPastEmpty(chain[0], [chain[1], chain[2]], out);
    } else if byId != {} {
      NamedDocument(chain, out);
    } else {
      ListingBeforeEmpty(chain[1], chain[2], out);
      ListingPastEmpty(chain[0], [chain[1], chain[2]], out);
    }
  }

  lemma NamedDocument(chain: seq<Stage>, out: seq<Doc>)
    requires chain != [] && !chain[0].resumable && chain[0].docs != {} && multiset(out) == multiset(chain[0].docs)
    ensures IsListing(chain, None, out)
  {
  }

  /**
   For every query and page size, with an index at rest, following cursors until there are none lists exactly what is
   expected, in order, whether a cursor is handed back as it is or as a token.
   */
  lemma SearchSessionListsExpected(kt: KeyText, query: Text, byId: set<Doc>, ranking: Doc -> int, ranked: set<Doc>,
                                   all: set<Doc>, viaToken: bool, size: nat, pages: seq<seq<Doc>>, out: seq<Doc>)
    requires size >= 1
    requires SoundChain(kt, ChainFor(query, byId, ranking, ranked, all))
    requires IsSession(kt, ChainFor(query, byId, ranking, ranked, all), viaToken, size, None, pages)
    requires IsExpected(query, byId, ranking, ranked, all, out)
    ensures Concat(pages) == out
  {
    var chain := ChainFor(query, byId, ranking, ranked, all);
    ExpectedIsListing(query, byId, ranking, ranked, all, out);
    assert chain[0..] == chain;
    SessionYieldsListing(kt, chain, viaToken, size, 0, None, pages, out);
  }

  /** Such a session makes at most one request for each document it lists, and one more. */
  lemma SearchSessionEnds(kt: KeyText, query: Text, byId: set<Doc>, ranking: Doc -> int, ranked: set<Doc>,
                          all: set<Doc>, viaToken: bool, size: nat, pages: seq<seq<Doc>>, out: seq<Doc>)
    requires size >= 1
    requires SoundChain(kt, ChainFor(query, byId, ranking, ranked, all))
    requires IsUnfinished(kt, ChainFor(query, byId, ranking, ranked, all), viaToken, size, None, pages)
    requires IsExpected(query, byId, ranking, ranked, all, out)
    ensures Concat(pages) <= out && |pages| <= |out|
  {
    hide IsUnfinished, SoundChain, IsListing;
    var chain := ChainFor(query, byId, ranking, ranked, all);
    ExpectedIsListing(query, byId, ranking, ranked, all, out);
    assert chain[0..] == chain;
    UnfinishedSessionIsPrefix(kt, chain, viaToken, size, 0, None, pages, out);
  }

  // ------------------------------------------------------------------ inline sessions, for any query

  /** The next offset offered to the client: a page that is not full ends the session. */
  function NextToken(size: nat, page: seq<Doc>, next: Option<Cursor>): Text {
    if |page| == size && size > 0 && next.Some? then Token(next) else []
  }

  /** An inline session over an index at rest. */
  ghost predicate IsInlineSession(kt: KeyText, chain: seq<Stage>, size: nat, token: Text, pages: seq<seq<Doc>>)
    decreases |pages|
  {
    && pages != []
    && exists next ::
         && IsAnswer(kt, chain, Offset(token), size, pages[0], next)
         && var token' := NextToken(size, pages[0], next);
            if token' == [] then |pages| == 1 else IsInlineSession(kt, chain, size, token', pages[1..])
  }

  /** Requests of such a session so far, each answered with a token for the next. */
  ghost predicate IsOpenInlineSession(kt: KeyText, chain: seq<Stage>, size: nat, token: Text, pages: seq<seq<Doc>>)
    decreases |pages|
  {
    pages == []
    || exists next ::
         && IsAnswer(kt, chain, Offset(token), size, pages[0], next)
         && NextToken(size, pages[0], next) != []
         && IsOpenInlineSession(kt, chain, size, NextToken(size, pages[0], next), pages[1..])
  }

  /** Behind a searcher that resumes, no other lists anything, once it has listed anything itself. */
  ghost predicate OneLists(chain: seq<Stage>) {
    forall i, j :: 0 <= i < j < |chain| && chain[i].resumable && chain[i].docs != {} ==> chain[j].docs == {}
  }

  lemma {:induction false} NothingListed(chain: seq<Stage>, out: seq<Doc>)
    requires IsListing(chain, None, out) && forall i :: 0 <= i < |chain| ==> chain[i].docs == {}
    ensures out == []
  {
    if chain != [] {
      if chain[0].resumable {
        var h: seq<Doc>, rest: seq<Doc> :|
          IsHits(chain[0].docs, chain[0].order, None, h) && IsListing(chain[1..], None, rest) && out == h + rest;
        NoHits(chain[0].docs, chain[0].order, None, h);
        NothingListed(chain[1..], rest);
      } else {
        NothingListed(chain[1..], out);
      }
    }
  }

  lemma NoHits(docs: set<Doc>, o: Order, after: Option<int>, h: seq<Doc>)
    requires IsHits(docs, o, after, h) && (docs == {} || IsHits(docs, o, after, []))
    ensures h == []
  {
    assert Eligible({}, o, after) == {};
    assert |multiset(h)| == |h|;
    assert multiset(h) == multiset{};
  }

  /** Once the one searcher that lists has come to its end, so has the listing. */
  lemma ListingIsOver(chain: seq<Stage>, to: nat, rank: int, rest: seq<Doc>)
    requires OneLists(chain) && to < |chain| && chain[to].resumable && chain[to].docs != {}
    requires IsHits(chain[to].docs, chain[to].order, Some(rank), []) && IsListing(chain[to..], Some(rank), rest)
    ensures rest == []
  {
    hide IsHits;
    var s := chain[to];
    assert chain[to..][1..] == chain[to + 1..];
    var h: seq<Doc>, tail: seq<Doc> :|
      IsHits(s.docs, s.order, Some(rank), h) && IsListing(chain[to..][1..], None, tail) && rest == h + tail;
    NoHits(s.docs, s.order, Some(rank), h);
    NothingListed(chain[to + 1..], tail);
  }

  /**
   The answer to an inline request: the next piece, and the end of the listing unless it comes with a token for the
   rest.
   */
  lemma InlineAnswer(kt: KeyText, chain: seq<Stage>, at: nat, token: Text, size: nat,
                     page: seq<Doc>, next: Option<Cursor>, out: seq<Doc>)
    returns (to: nat, rest: seq<Doc>)
    requires size >= 1 && SoundChain(kt, chain) && OneLists(chain)
    requires if Offset(token).Some? then at < |chain| && chain[at].name == Offset(token).value.searcher else at == 0
    requires IsAnswer(kt, chain, Offset(token), size, page, next)
    requires IsListing(chain[at..], CursorRank(kt, Offset(token)), out)
    ensures var token' := NextToken(size, page, next);
            && (token' == [] ==> out == page)
            && (token' != [] ==>
                  && |page| == size && out == page + rest
                  && to < |chain| && Offset(token').Some? && Offset(token').value.searcher == chain[to].name
                  && IsListing(chain[to..], CursorRank(kt, Offset(token')), rest))
  {
    hide IsListing, KeyTravels, IsAnswer, Offset, Token, ResumeRank, OneLists, SoundChain;
    var to', rank, rest' := AnswerFromSearcher(kt, chain, at, Offset(token), size, page, next, out);
    to, rest := to', rest';
    if next.Some? {
      TokenOfCursor(kt, chain[to].name, rank);
      if |page| < size {
        ListingIsOver(chain, to, rank, rest);
        assert page + [] == page;
      }
    }
  }

  /** The token of a sound cursor is not empty and leads back to the same searcher and place. */
  lemma TokenOfCursor(kt: KeyText, name: Text, rank: int)
    requires KeyTravels(kt, name, rank)
    ensures var token := Token(Some(PaginationOffset(name, kt.write(rank))));
            && token != [] && Offset(token).Some? && Offset(token).value.searcher == name
            && CursorRank(kt, Offset(token)) == Some(rank)
  {
    TokenIsNotEmpty(PaginationOffset(name, kt.write(rank)));
    CursorComesBack(kt, true, name, rank);
  }

  lemma {:induction false} InlineSessionIsListing(kt: KeyText, chain: seq<Stage>, size: nat, at: nat, token: Text,
                                                  pages: seq<seq<Doc>>, out: seq<Doc>)
    requires size >= 1 && SoundChain(kt, chain) && OneLists(chain)
    requires if Offset(token).Some? then at < |chain| && chain[at].name == Offset(token).value.searcher else at == 0
    requires IsInlineSession(kt, chain, size, token, pages)
    requires IsListing(chain[at..], CursorRank(kt, Offset(token)), out)
    ensures Concat(pages) == out
    decreases |pages|
  {
    hide IsListing, IsAnswer, Offset, Token, OneLists, SoundChain, NextToken, CursorRank;
    var next: Option<Cursor> :|
      && IsAnswer(kt, chain, Offset(token), size, pages[0], next)
      && var token' := NextToken(size, pages[0], next);
         if token' == [] then |pages| == 1 else IsInlineSession(kt, chain, size, token', pages[1..]);
    var to, rest := InlineAnswer(kt, chain, at, token, size, pages[0], next, out);
    var token' := NextToken(size, pages[0], next);
    if token' == [] {
      assert Concat(pages) == pages[0] + Concat([]);
    } else {
      InlineSessionIsListing(kt, chain, size, to, token', pages[1..], rest);
    }
  }

  lemma {:induction false} OpenInlineSessionIsPrefix(kt: KeyText, chain: seq<Stage>, size: nat, at: nat, token: Text,
                                                     pages: seq<seq<Doc>>, out: seq<Doc>)
    requires size >= 1 && SoundChain(kt, chain) && OneLists(chain)
    requires if Offset(token).Some? then at < |chain| && chain[at].name == Offset(token).value.searcher else at == 0
    requires IsOpenInlineSession(kt, chain, size, token, pages)
    requires IsListing(chain[at..], CursorRank(kt, Offset(token)), out)
    ensures Concat(pages) <= out && |Concat(pages)| == size * |pages|
    decreases |pages|
  {
    hide IsListing, IsAnswer, Offset, Token, OneLists, SoundChain, NextToken, CursorRank;
    if pages != [] {
      var next: Option<Cursor> :|
        && IsAnswer(kt, chain, Offset(token), size, pages[0], next)
        && NextToken(size, pages[0], next) != []
        && IsOpenInlineSession(kt, chain, size, NextToken(size, pages[0], next), pages[1..]);
      var to, rest := InlineAnswer(kt, chain, at, token, size, pages[0], next, out);
      OpenInlineSessionIsPrefix(kt, chain, size, to, NextToken(size, pages[0], next), pages[1..], rest);
      OnePageMore(size, |pages|);
    }
  }

  lemma NoCursorAtStart(kt: KeyText)
    ensures Offset([]) == None && CursorRank(kt, Offset([])) == None
  {
  }

  /**
   For every query, with the index at rest: an inline session, which ends with the first page that is not full, shows
   exactly what is expected, in order.
   */
  lemma InlineSessionListsExpected(kt: KeyText, query: Text, byId: set<Doc>, ranking: Doc -> int, ranked: set<Doc>,
                                   all: set<Doc>, size: nat, pages: seq<seq<Doc>>, out: seq<Doc>)
    requires size >= 1
    requires SoundChain(kt, ChainFor(query, byId, ranking, ranked, all))
    requires IsInlineSession(kt, ChainFor(query, byId, ranking, ranked, all), size, [], pages)
    requires IsExpected(query, byId, ranking, ranked, all, out)
    ensures Concat(pages) == out
  {
    hide IsInlineSession, SoundChain, IsListing, Offset, CursorRank;
    var chain := ChainFor(query, byId, ranking, ranked, all);
    ExpectedIsListing(query, byId, ranking, ranked, all, out);
    NoCursorAtStart(kt);
    assert chain[0..] == chain;
    InlineSessionIsListing(kt, chain, size, 0, [], pages, out);
  }

  /** And it ends: as long as it goes on it has shown full pages of what is expected, in order. */
  lemma InlineSessionEnds(kt: KeyText, query: Text, byId: set<Doc>, ranking: Doc -> int, ranked: set<Doc>,
                          all: set<Doc>, size: nat, pages: seq<seq<Doc>>, out: seq<Doc>)
    requires size >= 1
    requires SoundChain(kt, ChainFor(query, byId, ranking, ranked, all))
    requires IsOpenInlineSession(kt, ChainFor(query, byId, ranking, ranked, all), size, [], pages)
    requires IsExpected(query, byId, ranking, ranked, all, out)
    ensures Concat(pages) <= out && size * |pages| <= |out|
  {
    hide IsOpenInlineSession, SoundChain, IsListing, Offset, CursorRank;
    var chain := ChainFor(query, byId, ranking, ranked, all);
    ExpectedIsListing(query, byId, ranking, ranked, all, out);
    NoCursorAtStart(kt);
    assert chain[0..] == chain;
    OpenInlineSessionIsPrefix(kt, chain, size, 0, [], pages, out);
  }

  // ------------------------------------------------------------------ inline sessions over a changing index

  function EmptyQueryChain(docs: set<Doc>): seq<Stage> {
    ChainFor([], {}, d => 0, {}, docs)
  }

  /** One account's inline session for the empty query; the index may change between the requests. */
  ghost predicate IsTelegramSession(kt: KeyText, size: nat, token: Text, walk: seq<Fetch>)
    decreases |walk|
  {
    && walk != []
    && exists next ::
         && IsAnswer(kt, EmptyQueryChain(walk[0].docs), Offset(token), size, walk[0].page, next)
         && var token' := NextToken(size, walk[0].page, next);
            if token' == [] then |walk| == 1 else IsTelegramSession(kt, size, token', walk[1..])
  }

  ghost predicate KeysTravel(kt: KeyText, docs: set<Doc>) {
    forall d :: d in docs ==> KeyTravels(kt, ALL_SEARCHER, -d.created)
  }

  /** The cursor a request carries, if any, names the last searcher. */
  predicate ResumesAll(cursor: Option<Cursor>) {
    cursor.Some? ==> cursor.value.searcher == ALL_SEARCHER
  }

  lemma PageOfNothing(o: Order, after: Option<int>, size: nat, page: seq<Doc>)
    requires IsPage({}, o, after, size, page)
    ensures page == []
  {
    var hits: seq<Doc> :| IsHits({}, o, after, hits) && page == Cut(size, hits);
    assert Eligible({}, o, after) == {};
    assert |multiset(hits)| == 0;
  }

  lemma LastStageAnswer(kt: KeyText, s: Stage, cursor: Option<Cursor>, size: nat, data: seq<Doc>, next: Option<Cursor>)
    requires s.resumable && (cursor.Some? ==> cursor.value.searcher == s.name)
    requires IsAnswer(kt, [s], cursor, size, data, next)
    ensures IsPage(s.docs, s.order, CursorRank(kt, cursor), size, data)
    ensures next == StageCursor(kt, s, data)
  {
    assert [s][1..] == [];
  }

  lemma EmptyStageAnswer(kt: KeyText, s: Stage, chain: seq<Stage>, cursor: Option<Cursor>, size: nat, data: seq<Doc>,
                         next: Option<Cursor>)
    requires s.docs == {} && (cursor.Some? ==> cursor.value.searcher != s.name)
    requires IsAnswer(kt, [s] + chain, cursor, size, data, next)
    ensures IsAnswer(kt, chain, cursor, size, data, next)
  {
    assert ([s] + chain)[1..] == chain;
    if cursor.None? && data != [] && IsStagePage(s, None, false, size, data) {
      if s.resumable {
        PageOfNothing(s.order, None, size, data);
      }
      assert |multiset(data)| == |data|;
    }
  }

  /** An empty query is answered by the last searcher alone. */
  lemma EmptyQueryAnswer(kt: KeyText, docs: set<Doc>, cursor: Option<Cursor>, size: nat, data: seq<Doc>,
                         next: Option<Cursor>)
    requires ResumesAll(cursor)
    requires IsAnswer(kt, EmptyQueryChain(docs), cursor, size, data, next)
    ensures IsPage(docs, CreatedDesc, CursorRank(kt, cursor), size, data)
    ensures next == StageCursor(kt, EmptyQueryChain(docs)[2], data)
  {
    hide IsAnswer, IsPage, StageCursor;
    NamesAreDistinct();
    var chain := EmptyQueryChain(docs);
    assert chain == [chain[0]] + [chain[1], chain[2]];
    assert [chain[1], chain[2]] == [chain[1]] + [chain[2]];
    EmptyStageAnswer(kt, chain[0], [chain[1], chain[2]], cursor, size, data, next);
    EmptyStageAnswer(kt, chain[1], [chain[2]], cursor, size, data, next);
    LastStageAnswer(kt, chain[2], cursor, size, data, next);
  }

  lemma PageWithinDocs(docs: set<Doc>, o: Order, after: Option<int>, size: nat, page: seq<Doc>)
    requires IsPage(docs, o, after, size, page)
    ensures |page| <= size
    ensures forall i :: 0 <= i < |page| ==> page[i] in docs
  {
    var hits: seq<Doc> :| IsHits(docs, o, after, hits) && page == Cut(size, hits);
    HitsAreDistinct(docs, o, after, hits);
    assert forall i :: 0 <= i < |page| ==> page[i] in hits;
  }

  /** An inline session is a keyset walk over the index: the token neither loses nor changes the place. */
  lemma {:induction false} TelegramSessionIsWalk(kt: KeyText, size: nat, token: Text, walk: seq<Fetch>)
    requires size >= 1 && ResumesAll(Offset(token))
    requires IsTelegramSession(kt, size, token, walk)
    requires forall i :: 0 <= i < |walk| ==> KeysTravel(kt, walk[i].docs)
    ensures IsWalk(CreatedDesc, size, CursorRank(kt, Offset(token)), walk)
    decreases |walk|
  {
    hide IsAnswer, IsPage, KeyTravels, Offset, Token;
    var page := walk[0].page;
    var next: Option<Cursor> :|
      && IsAnswer(kt, EmptyQueryChain(walk[0].docs), Offset(token), size, page, next)
      && var token' := NextToken(size, page, next);
         if token' == [] then |walk| == 1 else IsTelegramSession(kt, size, token', walk[1..]);
    EmptyQueryAnswer(kt, walk[0].docs, Offset(token), size, page, next);
    PageWithinDocs(walk[0].docs, CreatedDesc, CursorRank(kt, Offset(token)), size, page);
    if |page| == size {
      var rank := NextKey(CreatedDesc, page).value;
      assert page[size - 1] in walk[0].docs && KeyTravels(kt, ALL_SEARCHER, rank);
      assert next == Some(PaginationOffset(ALL_SEARCHER, kt.write(rank)));
      TokenOfCursor(kt, ALL_SEARCHER, rank);
      TelegramSessionIsWalk(kt, size, Token(next), walk[1..]);
    }
  }

  lemma EmptyTokenResumesNothing(kt: KeyText)
    ensures ResumesAll(Offset([])) && CursorRank(kt, Offset([])) == None
  {
  }

  predicate IsIt(d: Doc, id: Id, created: int) {
    d.imageId == id || d.created == created
  }

  /** The document is there, created then, and no other has its id or was created at the same time. */
  ghost predicate IsThereAlone(docs: set<Doc>, id: Id, created: int) {
    && (exists d :: d in docs && d.imageId == id && d.created == created)
    && (forall d, e :: d in docs && e in docs && IsIt(d, id, created) && IsIt(e, id, created) ==> d == e)
  }

  lemma AloneStays(docs: set<Doc>, id: Id, created: int)
    requires IsThereAlone(docs, id, created)
    ensures Stays(docs, CreatedDesc, id, -created)
  {
    var d :| d in docs && d.imageId == id && d.created == created;
    assert Rank(CreatedDesc, d) == -created;
  }

  /** While others come and go, a document that stays, alone with its creation time, is shown exactly once. */
  lemma StayingIsShownOnce(kt: KeyText, size: nat, walk: seq<Fetch>, id: Id, created: int)
    requires size >= 1 && IsTelegramSession(kt, size, [], walk)
    requires forall i :: 0 <= i < |walk| ==> KeysTravel(kt, walk[i].docs) && IsThereAlone(walk[i].docs, id, created)
    ensures Visits(Visited(walk), id) == 1
  {
    hide KeysTravel, Stays, IsThereAlone, IsWalk, Visits, Visited, IsTelegramSession, Offset;
    forall i | 0 <= i < |walk|
      ensures Stays(walk[i].docs, CreatedDesc, id, -created)
    {
      AloneStays(walk[i].docs, id, created);
    }
    EmptyTokenResumesNothing(kt);
    TelegramSessionIsWalk(kt, size, [], walk);
    StayingIsVisitedOnce(CreatedDesc, size, None, walk, id, -created);
  }

  lemma NewestFirst(docs: set<Doc>, hits: seq<Doc>)
    requires IsHits(docs, CreatedDesc, None, hits) && DistinctRanks(CreatedDesc, docs)
    ensures forall i, j :: 0 <= i < j < |hits| ==> hits[i].created > hits[j].created
  {
    HitsAreDistinct(docs, CreatedDesc, None, hits);
    EligibleOrder(docs, CreatedDesc, None, hits);
    forall i, j | 0 <= i < j < |hits|
      ensures hits[i].created > hits[j].created
    {
      assert hits[i] in docs && hits[j] in docs && hits[i] != hits[j];
      assert Rank(CreatedDesc, hits[i]) <= Rank(CreatedDesc, hits[j]);
    }
  }

  ghost predicate AtRest(docs: set<Doc>, walk: seq<Fetch>) {
    forall i :: 0 <= i < |walk| ==> walk[i].docs == docs
  }

  lemma {:induction false} AtRestIsUndisturbed(docs: set<Doc>, o: Order, after: Option<int>, walk: seq<Fetch>)
    requires AtRest(docs, walk)
    ensures Undisturbed(docs, o, after, walk)
    decreases |walk|
  {
    if walk != [] {
      AtRestIsUndisturbed(docs, o, NextKey(o, walk[0].page), walk[1..]);
    }
  }

  /**
   With the index at rest a session shows the whole account, each document once, exactly when no page boundary separates
   two documents created at the same time. With distinct creation times it shows them newest first, in as many requests
   as there are full pages, plus one.
   */
  lemma SessionShowsAccount(kt: KeyText, size: nat, docs: set<Doc>, walk: seq<Fetch>, newestFirst: seq<Doc>)
    requires size >= 1 && IsTelegramSession(kt, size, [], walk) && AtRest(docs, walk)
    requires KeysTravel(kt, docs) && IsHits(docs, CreatedDesc, None, newestFirst)
    ensures multiset(Visited(walk)) == multiset(docs) <==> NoTieCut(CreatedDesc, size, newestFirst)
    ensures DistinctRanks(CreatedDesc, docs) ==>
              && Visited(walk) == newestFirst && size * (|walk| - 1) <= |docs| < size * |walk|
              && forall i, j :: 0 <= i < j < |newestFirst| ==> newestFirst[i].created > newestFirst[j].created
  {
    hide KeysTravel, IsHits, IsWalk, Visited, IsTelegramSession, Offset, NoTieCut, Undisturbed;
    EmptyTokenResumesNothing(kt);
    TelegramSessionIsWalk(kt, size, [], walk);
    AtRestIsUndisturbed(docs, CreatedDesc, None, walk);
    WalkIsComplete(docs, CreatedDesc, size, None, walk, newestFirst);
    assert Eligible(docs, CreatedDesc, None) == docs;
    if DistinctRanks(CreatedDesc, docs) {
      HitsAreDistinct(docs, CreatedDesc, None, newestFirst);
      WalkYieldsListing(docs, CreatedDesc, size, None, walk, newestFirst);
      NewestFirst(docs, newestFirst);
    }
  }

  /** Requests of an inline session so far, each answered with a token for the next. */
  ghost predicate IsUnfinishedSession(kt: KeyText, size: nat, token: Text, walk: seq<Fetch>)
    decreases |walk|
  {
    walk == []
    || exists next ::
         && IsAnswer(kt, EmptyQueryChain(walk[0].docs), Offset(token), size, walk[0].page, next)
         && NextToken(size, walk[0].page, next) != []
         && IsUnfinishedSession(kt, size, NextToken(size, walk[0].page, next), walk[1..])
  }

  lemma FirstHits(docs: set<Doc>, o: Order, after: Option<int>, hits: seq<Doc>, n: nat)
    requires IsHits(docs, o, after, hits) && 0 < n <= |hits|
    ensures forall i, j :: 0 <= i < j < n ==> hits[i] != hits[j]
    ensures forall i :: 0 <= i < n ==>
              hits[i] in docs && After(after, Rank(o, hits[i])) && Rank(o, hits[i]) <= Rank(o, hits[n - 1])
  {
    HitsAreDistinct(docs, o, after, hits);
    EligibleOrder(docs, o, after, hits);
    hide IsHits;
  }

  lemma FullPageFacts(docs: set<Doc>, o: Order, after: Option<int>, size: nat, page: seq<Doc>)
    requires IsPage(docs, o, after, size, page) && |page| == size > 0
    ensures forall i, j :: 0 <= i < j < size ==> page[i] != page[j]
    ensures forall d :: d in page ==> d in docs && After(after, Rank(o, d)) && !After(NextKey(o, page), Rank(o, d))
    ensures forall rank :: After(NextKey(o, page), rank) ==> After(after, rank)
  {
    hide IsHits, Rank;
    var hits: seq<Doc> :| IsHits(docs, o, after, hits) && page == Cut(size, hits);
    assert page == hits[..size];
    FirstHits(docs, o, after, hits, size);
    hide Cut, IsPage;
    assert forall i :: 0 <= i < size ==> page[i] == hits[i];
  }

  /** A full page takes its documents out of what is eligible. */
  lemma FullPageShrinks(docs: set<Doc>, o: Order, after: Option<int>, size: nat, page: seq<Doc>)
    requires IsPage(docs, o, after, size, page) && |page| == size > 0
    ensures |Eligible(docs, o, NextKey(o, page))| + size <= |Eligible(docs, o, after)|
  {
    FullPageFacts(docs, o, after, size, page);
    hide IsPage, NextKey, After, Rank;
    var shown := set d | d in page;
    DistinctSize(page);
    assert Eligible(docs, o, NextKey(o, page)) !! shown;
    SubsetSize(Eligible(docs, o, NextKey(o, page)) + shown, Eligible(docs, o, after));
  }

  lemma {:induction false} DistinctSize(page: seq<Doc>)
    requires forall i, j :: 0 <= i < j < |page| ==> page[i] != page[j]
    ensures |set d | d in page| == |page|
  {
    if page != [] {
      DistinctSize(page[1..]);
      assert (set d | d in page) == {page[0]} + (set d | d in page[1..]);
      assert page[0] !in page[1..];
    }
  }

  /**
   With the index at rest every session for the empty query ends, ties or not: no more requests go on than there are
   full pages.
   */
  lemma {:induction false} EmptyQuerySessionEnds(kt: KeyText, size: nat, token: Text, docs: set<Doc>, walk: seq<Fetch>)
    requires size >= 1 && ResumesAll(Offset(token)) && AtRest(docs, walk) && KeysTravel(kt, docs)
    requires IsUnfinishedSession(kt, size, token, walk)
    ensures size * |walk| <= |Eligible(docs, CreatedDesc, CursorRank(kt, Offset(token)))|
    decreases |walk|
  {
    hide IsAnswer, IsPage, KeyTravels, Offset, Token, Eligible;
    if walk != [] {
      var page := walk[0].page;
      var next: Option<Cursor> :|
        && IsAnswer(kt, EmptyQueryChain(walk[0].docs), Offset(token), size, page, next)
        && NextToken(size, page, next) != []
        && IsUnfinishedSession(kt, size, NextToken(size, page, next), walk[1..]);
      EmptyQueryAnswer(kt, docs, Offset(token), size, page, next);
      PageWithinDocs(docs, CreatedDesc, CursorRank(kt, Offset(token)), size, page);
      var rank := NextKey(CreatedDesc, page).value;
      assert page[size - 1] in docs && KeyTravels(kt, ALL_SEARCHER, rank);
      TokenOfCursor(kt, ALL_SEARCHER, rank);
      FullPageShrinks(docs, CreatedDesc, CursorRank(kt, Offset(token)), size, page);
      EmptyQuerySessionEnds(kt, size, Token(next), docs, walk[1..]);
      OnePageMore(size, |walk|);
    }
  }

  // ------------------------------------------------------------------ creation times as decimal text

  const INT64_LIMIT := 0x8000_0000_0000_0000

  function CreatedText(created: int): Text {
    if created < 0 then [HYPHEN] + DecimalText.Format(-created) else DecimalText.Format(created)
  }

  function ReadCreated(t: Text): int {
    if t != [] && t[0] == HYPHEN && DecimalText.AllDigits(t[1..]) then 0 - DecimalText.Value(t[1..]) as int
    else if DecimalText.AllDigits(t) then DecimalText.Value(t)
    else 0
  }

  const DECIMAL_KEYS := KeyText(rank => [CreatedText(-rank)], key => if key == [] then 0 else -ReadCreated(key[0]))

  lemma CreatedTextReadsBack(created: int)
    requires -INT64_LIMIT <= created < INT64_LIMIT
    ensures ReadCreated(CreatedText(created)) == created
    ensures Canonical(CreatedText(created)) == CreatedText(created)
    ensures |CreatedText(created)| <= 20
  {
    var n := if created < 0 then -created else created;
    var t := CreatedText(created);
    DecimalText.FormatReadsBack(n);
    TwentyDigits(n);
    assert UuidText.Parse(t) == None;
    if created < 0 {
      assert t[1..] == DecimalText.Format(n);
      assert !DecimalText.IsDigit(t[0]);
    }
  }

  lemma TwentyDigits(n: nat)
    requires n <= INT64_LIMIT
    ensures |DecimalText.Format(n)| <= 19
  {
    assert DecimalText.PowerOfTen(4) == 10000;
    assert DecimalText.PowerOfTen(8) == 100000000;
    assert DecimalText.PowerOfTen(12) == 1000000000000;
    assert DecimalText.PowerOfTen(16) == 10000000000000000;
    DecimalText.FormatLength(n, 19);
  }

  /** Sort values written as decimal int64 text survive tokens, whose length stays within Telegram's 64 bytes. */
  lemma DecimalKeysTravel(created: int)
    requires -INT64_LIMIT <= created < INT64_LIMIT
    ensures KeyTravels(DECIMAL_KEYS, ALL_SEARCHER, -created)
    ensures |Token(Some(PaginationOffset(ALL_SEARCHER, DECIMAL_KEYS.write(-created))))| <= 64
  {
    CreatedTextReadsBack(created);
    NamesAreDistinct();
    var t := CreatedText(created);
    var key := DECIMAL_KEYS.write(-created);
    assert key == [t] && CanonicalAll(key) == [t];
    assert key[1..] == [];
    assert ListBytes(key) == ElementBytes(Classify(t)) + [];
    Base64.EncodedShape(OffsetBytes(PaginationOffset(ALL_SEARCHER, key)));
  }
}
