/**
 Listing by following cursors, end to end: the index, the searcher chain, and the token in which the telegram
 service hands the cursor to the client and takes it back.
 */
module Sessions {
  import opened GoText
  import opened Entities
  import opened OffsetFormat
  import opened Paging
  import opened SearchChain
  import Sorting

  /** A sort value survives being written into a cursor, and the cursor being canonicalised by a token. */
  predicate KeyTravels(kt: KeyText, name: Text, rank: int) {
    var key := kt.write(rank);
    && name != [] && key != []
    && Fits(PaginationOffset(name, key))
    && kt.read(key) == rank
    && kt.read(CanonicalAll(key)) == rank
  }

  /** The cursor a client hands back: the very cursor, or what its token parses to. */
  function HandedBack(viaToken: bool, next: Cursor): Option<Cursor> {
    if viaToken then Offset(Token(Some(next))) else Some(next)
  }

  lemma CursorComesBack(kt: KeyText, viaToken: bool, name: Text, rank: int)
    requires KeyTravels(kt, name, rank)
    ensures var back := HandedBack(viaToken, PaginationOffset(name, kt.write(rank)));
            && back.Some? && back.value.searcher == name
            && ResumeRank(kt, back.value.sortingAfter) == Some(rank)
  {
    TokenRoundTrip(PaginationOffset(name, kt.write(rank)));
  }

  // ------------------------------------------------------------------ any chain, an index at rest

  ghost predicate SoundStage(kt: KeyText, s: Stage) {
    && (!s.resumable ==> |s.docs| <= 1)
    && (s.resumable ==> DistinctRanks(s.order, s.docs))
    && (s.resumable ==> forall d :: d in s.docs ==> KeyTravels(kt, s.name, Rank(s.order, d)))
  }

  ghost predicate SoundChain(kt: KeyText, chain: seq<Stage>) {
    && (forall i :: 0 <= i < |chain| ==> SoundStage(kt, chain[i]))
    && (forall i, j :: 0 <= i < j < |chain| ==> chain[i].name != chain[j].name)
  }

  /**
   Everything the chain has to offer from its first searcher on, resumed behind `after`: the listings one after
   the other, up to and including the first answer of a searcher that hands out no cursor.
   */
  ghost predicate IsListing(chain: seq<Stage>, after: Option<int>, out: seq<Doc>) {
    if chain == [] then out == []
    else if chain[0].resumable then
      exists h, rest :: IsHits(chain[0].docs, chain[0].order, after, h) && IsListing(chain[1..], None, rest)
        && out == h + rest
    else if after.None? && chain[0].docs != {} then multiset(out) == multiset(chain[0].docs)
    else IsListing(chain[1..], None, out)
  }

  /** Every answer's cursor is fed into the next request, until there is none. */
  ghost predicate IsSession(kt: KeyText, chain: seq<Stage>, viaToken: bool, size: nat, cursor: Option<Cursor>,
                            pages: seq<seq<Doc>>)
    decreases |pages|
  {
    && pages != []
    && exists next :: IsAnswer(kt, chain, cursor, size, pages[0], next)
                   && if next.None? then |pages| == 1
                      else IsSession(kt, chain, viaToken, size, HandedBack(viaToken, next.value), pages[1..])
  }

  function Concat(pages: seq<seq<Doc>>): seq<Doc> {
    if pages == [] then [] else pages[0] + Concat(pages[1..])
  }

  /** The rest of a sorted listing behind its first page. */
  lemma ListingBehindPage(s: Stage, after: Option<int>, size: nat, page: seq<Doc>, h: seq<Doc>)
    requires size >= 1 && DistinctRanks(s.order, s.docs) && page != []
    requires IsPage(s.docs, s.order, after, size, page) && IsHits(s.docs, s.order, after, h)
    ensures |page| <= |h| && page == h[..|page|] && page[|page| - 1] in s.docs
    ensures |page| <= size && (|page| < size ==> |page| == |h|)
    ensures IsHits(s.docs, s.order, NextKey(s.order, page), h[|page|..])
  {
    var hits: seq<Doc> :| IsHits(s.docs, s.order, after, hits) && page == Cut(size, hits);
    DistinctHits(s, after, hits, h);
    BehindPosition(s, after, h, |page|);
  }

  lemma BehindPosition(s: Stage, after: Option<int>, h: seq<Doc>, n: nat)
    requires DistinctRanks(s.order, s.docs) && 1 <= n <= |h|
    requires IsHits(s.docs, s.order, after, h)
    ensures h[n - 1] in s.docs
    ensures IsHits(s.docs, s.order, Some(Rank(s.order, h[n - 1])), h[n..])
  {
    hide IsHits;
    HitsAreDistinct(s.docs, s.order, after, h);
    assert h[n - 1] in h;
    if |h| > n {
      assert h[n] in h && h[n - 1] != h[n];
    }
    TailIsHits(s.docs, s.order, after, h, n);
  }

  lemma DistinctHits(s: Stage, after: Option<int>, hits: seq<Doc>, h: seq<Doc>)
    requires DistinctRanks(s.order, s.docs)
    requires IsHits(s.docs, s.order, after, hits) && IsHits(s.docs, s.order, after, h)
    ensures hits == h
  {
    HitsAreDistinct(s.docs, s.order, after, hits);
    assert Sorting.DistinctKeys(RankBy(s.order), hits) by {
      assert forall d :: d in multiset(hits) ==> d in hits && RankBy(s.order)(d) == Rank(s.order, d);
    }
    Sorting.SortsAgree(RankBy(s.order), hits, h);
  }

  /** Nothing eligible, nothing listed. */
  lemma EmptyPageMeansNoHits(s: Stage, after: Option<int>, size: nat, h: seq<Doc>)
    requires size >= 1
    requires IsPage(s.docs, s.order, after, size, []) && IsHits(s.docs, s.order, after, h)
    ensures h == []
  {
    var hits: seq<Doc> :| IsHits(s.docs, s.order, after, hits) && [] == Cut(size, hits);
    assert |multiset(hits)| == 0 && |multiset(h)| == |h|;
  }

  /** The rank a request resumes after, at the searcher its cursor names. */
  function CursorRank(kt: KeyText, cursor: Option<Cursor>): Option<int> {
    if cursor.None? then None else ResumeRank(kt, cursor.value.sortingAfter)
  }

  ghost predicate HeadAnswers(kt: KeyText, s: Stage, after: Option<int>, size: nat, data: seq<Doc>,
                              next: Option<Cursor>) {
    data != [] && IsStagePage(s, after, after.Some?, size, data) && next == StageCursor(kt, s, data)
  }

  lemma UnresumableHead(s: Stage, data: seq<Doc>, out: seq<Doc>)
    requires |s.docs| <= 1 && multiset(data) == multiset(s.docs) && data != []
    requires s.docs != {} ==> multiset(out) == multiset(s.docs)
    ensures s.docs != {} && out == data
  {
    assert |multiset(data)| == |data| && |multiset(out)| == |out| && |multiset(s.docs)| == |s.docs|;
    assert data[0] in multiset(data) && out[0] in multiset(out);
    assert data == [data[0]] && out == [out[0]];
  }

  lemma ResumableHead(kt: KeyText, chain: seq<Stage>, after: Option<int>, size: nat, data: seq<Doc>, out: seq<Doc>)
    returns (rest: seq<Doc>)
    requires size >= 1 && chain != [] && chain[0].resumable && DistinctRanks(chain[0].order, chain[0].docs)
    requires data != [] && IsPage(chain[0].docs, chain[0].order, after, size, data) && IsListing(chain, after, out)
    ensures IsListing(chain, NextKey(chain[0].order, data), rest) && out == data + rest
    ensures data[|data| - 1] in chain[0].docs
    ensures |data| <= size
            && (|data| < size ==> IsHits(chain[0].docs, chain[0].order, NextKey(chain[0].order, data), []))
  {
    hide IsHits, IsPage, DistinctRanks;
    var s := chain[0];
    var h: seq<Doc>, tail: seq<Doc> :|
      IsHits(s.docs, s.order, after, h) && IsListing(chain[1..], None, tail) && out == h + tail;
    ListingBehindPage(s, after, size, data, h);
    assert |data| < size ==> h[|data|..] == [];
    rest := h[|data|..] + tail;
    assert out == data + rest;
  }

  /** The answer is a page of a searcher that resumes; unless it is full, nothing of that searcher lies behind it. */
  ghost predicate IsCutOff(s: Stage, rank: int, size: nat, data: seq<Doc>) {
    s.resumable && s.docs != {} && |data| <= size && (|data| < size ==> IsHits(s.docs, s.order, Some(rank), []))
  }

  /** The answer comes from the first searcher: it ends the listing, or the listing goes on behind it right there. */
  lemma HeadPiece(kt: KeyText, chain: seq<Stage>, after: Option<int>, size: nat,
                  data: seq<Doc>, next: Option<Cursor>, out: seq<Doc>)
    returns (rank: int, rest: seq<Doc>)
    requires size >= 1 && chain != [] && SoundStage(kt, chain[0])
    requires HeadAnswers(kt, chain[0], after, size, data, next) && IsListing(chain, after, out)
    ensures next.None? ==> out == data
    ensures next.Some? ==>
              && KeyTravels(kt, chain[0].name, rank) && next.value == PaginationOffset(chain[0].name, kt.write(rank))
              && IsListing(chain, Some(rank), rest) && out == data + rest
              && IsCutOff(chain[0], rank, size, data)
  {
    hide KeyTravels;
    rank, rest := 0, [];
    if chain[0].resumable {
      rest := ResumableHead(kt, chain, after, size, data, out);
      rank := NextKey(chain[0].order, data).value;
    } else {
      UnresumableHead(chain[0], data, out);
    }
  }

  /** The first searcher has nothing: the listing is that of the others. */
  lemma HeadEmpty(kt: KeyText, chain: seq<Stage>, after: Option<int>, size: nat, out: seq<Doc>)
    requires size >= 1 && chain != []
    requires IsStagePage(chain[0], after, after.Some?, size, []) && IsListing(chain, after, out)
    ensures IsListing(chain[1..], None, out)
  {
    var s := chain[0];
    if s.resumable {
      var h: seq<Doc>, tail: seq<Doc> :|
        IsHits(s.docs, s.order, after, h) && IsListing(chain[1..], None, tail) && out == h + tail;
      EmptyPageMeansNoHits(s, after, size, h);
      assert out == tail;
    } else if after.None? {
      assert |multiset(s.docs)| == 0;
    }
  }

  /**
   One answer is the next piece of the listing: either it ends the listing, or its cursor names the searcher at
   some position and the listing behind the piece is the listing from there.
   */
  lemma {:induction false} AnswerIsNextPiece(kt: KeyText, chain: seq<Stage>, cursor: Option<Cursor>, size: nat,
                                             data: seq<Doc>, next: Option<Cursor>, out: seq<Doc>)
    returns (at: nat, rank: int, rest: seq<Doc>)
    requires size >= 1 && SoundChain(kt, chain)
    requires cursor.Some? ==> chain != [] && chain[0].name == cursor.value.searcher
    requires IsAnswer(kt, chain, cursor, size, data, next)
    requires IsListing(chain, CursorRank(kt, cursor), out)
    ensures next.None? ==> out == data
    ensures next.Some? ==>
              && at < |chain| && KeyTravels(kt, chain[at].name, rank)
              && next.value == PaginationOffset(chain[at].name, kt.write(rank))
              && IsListing(chain[at..], Some(rank), rest) && out == data + rest
              && IsCutOff(chain[at], rank, size, data)
    decreases |chain|
  {
    hide IsListing, IsStagePage, StageCursor, KeyTravels, IsCutOff;
    at, rank, rest := 0, 0, [];
    if chain == [] {
      ListingOfNothing(CursorRank(kt, cursor), out);
    } else if HeadAnswers(kt, chain[0], CursorRank(kt, cursor), size, data, next) {
      rank, rest := HeadPiece(kt, chain, CursorRank(kt, cursor), size, data, next, out);
      assert chain[0..] == chain;
    } else {
      HeadEmpty(kt, chain, CursorRank(kt, cursor), size, out);
      at, rank, rest := AnswerIsNextPiece(kt, chain[1..], None, size, data, next, out);
      if next.Some? {
        assert chain[1..][at..] == chain[at + 1..];
        at := at + 1;
      }
    }
  }

  lemma ListingOfNothing(after: Option<int>, out: seq<Doc>)
    requires IsListing([], after, out)
    ensures out == []
  {
  }

  // ------------------------------------------------------------------ sessions

  /** Searchers before the one a cursor names are passed over. */
  lemma {:induction false} SkipToNamed(kt: KeyText, chain: seq<Stage>, cursor: Cursor, at: nat, size: nat,
                                       data: seq<Doc>, next: Option<Cursor>)
    requires at < |chain| && chain[at].name == cursor.searcher
    requires forall i :: 0 <= i < at ==> chain[i].name != cursor.searcher
    requires IsAnswer(kt, chain, Some(cursor), size, data, next)
    ensures IsAnswer(kt, chain[at..], Some(cursor), size, data, next)
    decreases at
  {
    if at == 0 {
      assert chain[0..] == chain;
    } else {
      SkipToNamed(kt, chain[1..], cursor, at - 1, size, data, next);
      assert chain[1..][at - 1..] == chain[at..];
    }
  }

  /** The answer to a request whose cursor, if any, names searcher `at`, as a piece of the listing from there on. */
  lemma AnswerFromSearcher(kt: KeyText, chain: seq<Stage>, at: nat, cursor: Option<Cursor>, size: nat,
                           data: seq<Doc>, next: Option<Cursor>, out: seq<Doc>)
    returns (to: nat, rank: int, rest: seq<Doc>)
    requires size >= 1 && SoundChain(kt, chain)
    requires if cursor.Some? then at < |chain| && chain[at].name == cursor.value.searcher else at == 0
    requires IsAnswer(kt, chain, cursor, size, data, next)
    requires IsListing(chain[at..], CursorRank(kt, cursor), out)
    ensures next.None? ==> out == data
    ensures next.Some? ==>
              && to < |chain| && KeyTravels(kt, chain[to].name, rank)
              && next.value == PaginationOffset(chain[to].name, kt.write(rank))
              && IsListing(chain[to..], Some(rank), rest) && out == data + rest
              && IsCutOff(chain[to], rank, size, data)
  {
    hide IsListing, KeyTravels, IsAnswer, SoundStage, CursorRank, IsCutOff;
    var tail := chain[at..];
    if cursor.Some? {
      SkipToNamed(kt, chain, cursor.value, at, size, data, next);
    } else {
      assert tail == chain;
    }
    assert SoundChain(kt, tail);
    to, rank, rest := AnswerIsNextPiece(kt, tail, cursor, size, data, next, out);
    if next.Some? {
      assert tail[to..] == chain[at + to..] && tail[to] == chain[at + to];
      to := at + to;
    }
  }

  /**
   Following cursors, directly or as tokens, yields exactly what the chain lists from the cursor on, each document
   in its place, whatever the page size.
   */
  lemma {:induction false} SessionYieldsListing(kt: KeyText, chain: seq<Stage>, viaToken: bool, size: nat,
                                                at: nat, cursor: Option<Cursor>, pages: seq<seq<Doc>>, out: seq<Doc>)
    requires size >= 1 && SoundChain(kt, chain)
    requires if cursor.Some? then at < |chain| && chain[at].name == cursor.value.searcher else at == 0
    requires IsSession(kt, chain, viaToken, size, cursor, pages)
    requires IsListing(chain[at..], CursorRank(kt, cursor), out)
    ensures Concat(pages) == out
    decreases |pages|
  {
    hide IsListing, KeyTravels, IsAnswer, SoundChain, HandedBack, IsCutOff;
    var next: Option<Cursor> :| IsAnswer(kt, chain, cursor, size, pages[0], next)
                             && if next.None? then |pages| == 1
                                else IsSession(kt, chain, viaToken, size, HandedBack(viaToken, next.value), pages[1..]);
    var to, rank, rest := AnswerFromSearcher(kt, chain, at, cursor, size, pages[0], next, out);
    if next.None? {
      assert Concat(pages) == pages[0] + Concat([]);
    } else {
      CursorComesBack(kt, viaToken, chain[to].name, rank);
      SessionYieldsListing(kt, chain, viaToken, size, to, HandedBack(viaToken, next.value), pages[1..], rest);
    }
  }

  /** Requests so far, each answered with a cursor for the next. */
  ghost predicate IsUnfinished(kt: KeyText, chain: seq<Stage>, viaToken: bool, size: nat, cursor: Option<Cursor>,
                               pages: seq<seq<Doc>>)
    decreases |pages|
  {
    pages == []
    || exists next :: IsAnswer(kt, chain, cursor, size, pages[0], Some(next))
                   && IsUnfinished(kt, chain, viaToken, size, HandedBack(viaToken, next), pages[1..])
  }

  lemma {:induction false} CursorMeansData(kt: KeyText, chain: seq<Stage>, cursor: Option<Cursor>, size: nat,
                                           data: seq<Doc>, next: Cursor)
    requires IsAnswer(kt, chain, cursor, size, data, Some(next))
    ensures data != []
    decreases |chain|
  {
    hide IsStagePage;
    if data == [] {
      if cursor.Some? && chain[0].name != cursor.value.searcher {
        CursorMeansData(kt, chain[1..], cursor, size, data, next);
      } else {
        CursorMeansData(kt, chain[1..], None, size, data, next);
      }
    }
  }

  /**
   What an unfinished session has shown is the beginning of the listing, and it has made no more requests than that
   shows documents: so every session ends.
   */
  lemma {:induction false} UnfinishedSessionIsPrefix(kt: KeyText, chain: seq<Stage>, viaToken: bool, size: nat,
                                                     at: nat, cursor: Option<Cursor>, pages: seq<seq<Doc>>,
                                                     out: seq<Doc>)
    requires size >= 1 && SoundChain(kt, chain)
    requires if cursor.Some? then at < |chain| && chain[at].name == cursor.value.searcher else at == 0
    requires IsUnfinished(kt, chain, viaToken, size, cursor, pages)
    requires IsListing(chain[at..], CursorRank(kt, cursor), out)
    ensures Concat(pages) <= out && |pages| <= |Concat(pages)|
    decreases |pages|
  {
    hide IsListing, KeyTravels, IsAnswer, SoundChain, HandedBack, IsCutOff;
    if pages != [] {
      var next :| IsAnswer(kt, chain, cursor, size, pages[0], Some(next))
               && IsUnfinished(kt, chain, viaToken, size, HandedBack(viaToken, next), pages[1..]);
      CursorMeansData(kt, chain, cursor, size, pages[0], next);
      var to, rank, rest := AnswerFromSearcher(kt, chain, at, cursor, size, pages[0], Some(next), out);
      CursorComesBack(kt, viaToken, chain[to].name, rank);
      UnfinishedSessionIsPrefix(kt, chain, viaToken, size, to, HandedBack(viaToken, next), pages[1..], rest);
    }
  }
}
