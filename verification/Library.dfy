/** The services that change the library, as methods over the two stores, proved against LibraryState. */
module Library {
  import opened GoText
  import opened Entities
  import opened LibraryState
  import opened LibraryRuns
  import opened Paging

  /** The account's documents. */
  function AccountDocs(index: map<Id, Doc>, account: Id): set<Doc> {
    set id | id in index && index[id].accountId == account :: index[id]
  }

  function AllDocs(index: map<Id, Doc>): set<Doc> {
    set id | id in index :: index[id]
  }

  datatype ExportItem = ExportItem(metadata: Doc, original: Content, thumbnail: Content)

  function MetadataOf(items: seq<ExportItem>): (docs: seq<Doc>)
    ensures |docs| == |items|
    ensures forall i :: 0 <= i < |items| ==> docs[i] == items[i].metadata
  {
    seq(|items|, i requires 0 <= i < |items| => items[i].metadata)
  }

  /** Turns a walk into the walk behind it: what a paging loop has done so far, in front of what it has yet to do. */
  ghost predicate WalkSoFar(docs: set<Doc>, o: Order, size: nat, walk: seq<Fetch>, after: Option<int>) {
    forall rest :: IsUndisturbedWalk(docs, o, size, after, rest) ==> IsUndisturbedWalk(docs, o, size, None, walk + rest)
  }

  lemma WalkStarts(docs: set<Doc>, o: Order, size: nat)
    ensures WalkSoFar(docs, o, size, [], None) && Visited([]) == []
  {
    assert forall rest: seq<Fetch> :: [] + rest == rest;
  }

  lemma WalkInFront(docs: set<Doc>, o: Order, size: nat, after: Option<int>, f: Fetch, rest: seq<Fetch>)
    requires IsPage(f.docs, o, after, size, f.page) && Eligible(f.docs, o, after) == Eligible(docs, o, after)
    requires if |f.page| < size then rest == [] else IsUndisturbedWalk(docs, o, size, NextKey(o, f.page), rest)
    ensures IsUndisturbedWalk(docs, o, size, after, [f] + rest)
  {
    hide IsPage, Eligible, NextKey;
    var walk := [f] + rest;
    assert walk[0] == f && walk[1..] == rest;
    assert IsWalk(o, size, after, walk);
    assert Undisturbed(docs, o, after, walk);
  }

  lemma WalkGoesOn(docs: set<Doc>, o: Order, size: nat, walk: seq<Fetch>, after: Option<int>, f: Fetch)
    requires WalkSoFar(docs, o, size, walk, after)
    requires IsPage(f.docs, o, after, size, f.page) && Eligible(f.docs, o, after) == Eligible(docs, o, after)
    ensures |f.page| < size ==> IsUndisturbedWalk(docs, o, size, None, walk + [f])
    ensures |f.page| >= size ==> WalkSoFar(docs, o, size, walk + [f], NextKey(o, f.page))
  {
    hide IsPage, Eligible, NextKey, IsUndisturbedWalk;
    if |f.page| < size {
      WalkInFront(docs, o, size, after, f, []);
      assert [f] + [] == [f];
    } else {
      forall rest | IsUndisturbedWalk(docs, o, size, NextKey(o, f.page), rest)
        ensures IsUndisturbedWalk(docs, o, size, None, walk + [f] + rest)
      {
        WalkInFront(docs, o, size, after, f, rest);
        assert walk + ([f] + rest) == walk + [f] + rest;
      }
    }
  }

  lemma {:induction false} VisitedAppend(walk: seq<Fetch>, f: Fetch)
    ensures Visited(walk + [f]) == Visited(walk) + f.page
  {
    if walk == [] {
      assert [] + [f] == [f] && [f][1..] == [];
      assert f.page + [] == f.page;
    } else {
      VisitedAppend(walk[1..], f);
      assert (walk + [f])[1..] == walk[1..] + [f];
    }
  }

  /** The index after the deletion of these documents, except the stuck ones. */
  function Surviving(index: map<Id, Doc>, deleted: seq<Doc>, stuck: set<Id>): map<Id, Doc> {
    map id | id in index && (index[id] !in deleted || id in stuck) :: index[id]
  }

  predicate IsMediumOf(docs: seq<Doc>, key: MediaKey) {
    exists i :: 0 <= i < |docs| && (key == KeyOf(docs[i], Original) || key == KeyOf(docs[i], Thumbnail))
  }

  function SurvivingMedia(bucket: map<MediaKey, Content>, deleted: seq<Doc>,
                          stuck: set<MediaKey>): map<MediaKey, Content> {
    map key | key in bucket && (!IsMediumOf(deleted, key) || key in stuck) :: bucket[key]
  }

  lemma SurvivingStep(index: map<Id, Doc>, deleted: seq<Doc>, d: Doc, stuck: set<Id>)
    requires Keyed(State(index, map[])) && d.imageId in index && index[d.imageId] == d
    ensures Surviving(index, deleted + [d], stuck)
         == Surviving(index, deleted, stuck) - (if d.imageId in stuck then {} else {d.imageId})
  {
  }

  lemma SurvivingMediaStep(bucket: map<MediaKey, Content>, deleted: seq<Doc>, d: Doc, stuck: set<MediaKey>)
    ensures SurvivingMedia(bucket, deleted + [d], stuck)
         == DropMedium(
              DropMedium(SurvivingMedia(bucket, deleted, stuck), KeyOf(d, Original), KeyOf(d, Original) !in stuck),
              KeyOf(d, Thumbnail), KeyOf(d, Thumbnail) !in stuck)
  {
    var more := deleted + [d];
    forall key
      ensures IsMediumOf(more, key) <==>
                IsMediumOf(deleted, key) || key == KeyOf(d, Original) || key == KeyOf(d, Thumbnail)
    {
      assert more[|deleted|] == d;
      if IsMediumOf(deleted, key) {
        var i :| 0 <= i < |deleted| && (key == KeyOf(deleted[i], Original) || key == KeyOf(deleted[i], Thumbnail));
        assert more[i] == deleted[i];
      }
    }
  }

  lemma NothingDeleted(st: State, stuck: set<Id>, stuckMedia: set<MediaKey>)
    ensures Surviving(st.index, [], stuck) == st.index && SurvivingMedia(st.bucket, [], stuckMedia) == st.bucket
  {
  }

  /** A document of the account is found by its id until it is deleted. */
  lemma FoundIfThere(index: map<Id, Doc>, now: map<Id, Doc>, deleted: seq<Doc>, d: Doc, account: Id, stuck: set<Id>)
    requires Keyed(State(index, map[])) && d in AccountDocs(index, account) && now == Surviving(index, deleted, stuck)
    ensures d.imageId in index && index[d.imageId] == d
    ensures forall bucket :: Find(State(now, bucket), account, d.imageId).Some? <==> d.imageId in now
  {
  }

  lemma SurvivingTwice(index: map<Id, Doc>, a: seq<Doc>, b: seq<Doc>, stuck: set<Id>)
    ensures Surviving(Surviving(index, a, stuck), b, stuck) == Surviving(index, a + b, stuck)
  {
  }

  lemma SurvivingMediaTwice(bucket: map<MediaKey, Content>, a: seq<Doc>, b: seq<Doc>, stuck: set<MediaKey>)
    ensures SurvivingMedia(SurvivingMedia(bucket, a, stuck), b, stuck) == SurvivingMedia(bucket, a + b, stuck)
  {
    forall key
      ensures IsMediumOf(a + b, key) <==> IsMediumOf(a, key) || IsMediumOf(b, key)
    {
      if IsMediumOf(a, key) {
        var i :| 0 <= i < |a| && (key == KeyOf(a[i], Original) || key == KeyOf(a[i], Thumbnail));
        assert (a + b)[i] == a[i];
      }
      if IsMediumOf(b, key) {
        var i :| 0 <= i < |b| && (key == KeyOf(b[i], Original) || key == KeyOf(b[i], Thumbnail));
        assert (a + b)[|a| + i] == b[i];
      }
    }
  }

  lemma SurvivingKeyed(st: State, a: seq<Doc>, b: seq<Doc>, stuck: set<Id>, bucket: map<MediaKey, Content>)
    requires Keyed(st)
    ensures Keyed(State(Surviving(Surviving(st.index, a, stuck), b, stuck), bucket))
  {
  }

  /** Deleting behind the cursor leaves everything ahead of it. */
  lemma NothingLostAhead(index: map<Id, Doc>, deleted: seq<Doc>, stuck: set<Id>, account: Id, after: Option<int>)
    requires forall d :: d in deleted ==> !After(after, Rank(CreatedDesc, d))
    ensures Eligible(AccountDocs(Surviving(index, deleted, stuck), account), CreatedDesc, after)
         == Eligible(AccountDocs(index, account), CreatedDesc, after)
    ensures AccountDocs(Surviving(index, deleted, stuck), account) <= AccountDocs(index, account)
  {
    var now := Surviving(index, deleted, stuck);
    forall d | d in AccountDocs(index, account) && After(after, Rank(CreatedDesc, d))
      ensures d in AccountDocs(now, account)
    {
      var id :| id in index && index[id].accountId == account && index[id] == d;
      assert id in now && now[id] == d;
    }
  }

  function Exported(index: map<Id, Doc>, account: Option<Id>): set<Doc> {
    if account.Some? then AccountDocs(index, account.value) else AllDocs(index)
  }

  function ExportOrder(account: Option<Id>): Order {
    if account.Some? then CreatedDesc else ImageIdAsc
  }

  /** An exported item is a document of the library, of the account if one is given, with its media. */
  predicate IsExportOf(st: State, account: Option<Id>, unreadable: set<Id>, item: ExportItem) {
    var d := item.metadata;
    && d in st.index.Values && d.imageId !in unreadable && (account.Some? ==> d.accountId == account.value)
    && HasMedia(st, d)
    && item.original == st.bucket[KeyOf(d, Original)] && item.thumbnail == st.bucket[KeyOf(d, Thumbnail)]
  }

  /** Some document to export has a medium that is missing or cannot be read. */
  ghost predicate Unexportable(st: State, account: Option<Id>, unreadable: set<Id>) {
    exists id :: id in st.index && (account.Some? ==> st.index[id].accountId == account.value)
              && (st.index[id].imageId in unreadable || !HasMedia(st, st.index[id]))
  }

  lemma PageIsWithin(docs: set<Doc>, o: Order, after: Option<int>, page: seq<Doc>)
    requires IsPage(docs, o, after, 100, page)
    ensures forall d :: d in page ==> d in docs
  {
    var hits: seq<Doc> :| IsHits(docs, o, after, hits) && page == Cut(100, hits);
    HitsAreDistinct(docs, o, after, hits);
  }

  lemma CursorMoves(docs: set<Doc>, o: Order, after: Option<int>, page: seq<Doc>)
    requires IsPage(docs, o, after, 100, page)
    ensures page != [] ==> Eligible(docs, o, NextKey(o, page)) < Eligible(docs, o, after)
  {
    var hits: seq<Doc> :| IsHits(docs, o, after, hits) && page == Cut(100, hits);
    EligibleOrder(docs, o, after, hits);
    if page != [] {
      var d := page[|page| - 1];
      assert d == hits[|page| - 1];
      assert d in Eligible(docs, o, after) && d !in Eligible(docs, o, NextKey(o, page));
    }
  }

  lemma PageFacts(docs: set<Doc>, after: Option<int>, page: seq<Doc>)
    requires IsPage(docs, CreatedDesc, after, 100, page)
    ensures |page| <= 100
    ensures forall i :: 0 <= i < |page| ==> page[i] in docs && After(after, Rank(CreatedDesc, page[i]))
    ensures page != [] ==> forall i :: 0 <= i < |page| ==>
              !After(NextKey(CreatedDesc, page), Rank(CreatedDesc, page[i]))
    ensures page != [] ==> page[|page| - 1] in Eligible(docs, CreatedDesc, after)
    ensures page != [] ==> forall r :: After(NextKey(CreatedDesc, page), r) ==> After(after, r)
  {
    var hits: seq<Doc> :| IsHits(docs, CreatedDesc, after, hits) && page == Cut(100, hits);
    EligibleOrder(docs, CreatedDesc, after, hits);
    assert forall i :: 0 <= i < |page| ==> page[i] == hits[i];
  }

  /** The only hit on a page of one is a document no other precedes. */
  lemma FirstHit(docs: set<Doc>, o: Order, page: seq<Doc>)
    requires IsPage(docs, o, None, 1, page)
    ensures page == [] ==> docs == {}
    ensures page != [] ==> page[0] in docs && forall d :: d in docs ==> Rank(o, page[0]) <= Rank(o, d)
  {
    var hits: seq<Doc> :| IsHits(docs, o, None, hits) && page == Cut(1, hits);
    HitsAreDistinct(docs, o, None, hits);
    EligibleOrder(docs, o, None, hits);
    forall d | d in docs
      ensures page != [] && Rank(o, page[0]) <= Rank(o, d)
    {
      assert d in hits;
    }
  }

  class Library {
    const md5: Content -> string
    var index: map<Id, Doc>
    var bucket: map<MediaKey, Content>

    function View(): State
      reads this
    {
      State(index, bucket)
    }

    constructor (md5: Content -> string)
      ensures View() == State(map[], map[]) && this.md5 == md5
    {
      this.md5 := md5;
      index, bucket := map[], map[];
    }

    /** GetDuplicatesByHash, one hit, highest image id first. */
    method DuplicateByHash(account: Id, hash: string, exclude: Option<Id>) returns (found: Option<Doc>)
      requires Keyed(View())
      ensures found == HighestId(SameHash(View(), account, hash, exclude))
    {
      var same := SameHash(View(), account, hash, exclude);
      var order := Relevance((d: Doc) => -(d.imageId as int));
      var page := Query(same, order, None, 1);
      FirstHit(same, order, page);
      found := if page == [] then None else Some(page[0]);
      assert found.Some? ==> forall d, e :: d in same && e in same && d.imageId == e.imageId ==> d == e;
    }

    method RunStep(input: Input, w: PipelineWorld, step: PipelineStep, ctx: Context) returns (r: Result<Context>)
      requires Keyed(View())
      ensures r == DoStep(md5, View(), input, w, step, ctx)
    {
      match step
      case CalcHash =>
        if ctx.hash != "" {
          return Ok(ctx);
        }
        if !w.readable {
          return Err;
        }
        r := Ok(ctx.(hash := md5(input.raw)));
      case CheckDuplicateByHash =>
        if !w.hashQuery {
          return Err;
        }
        var found := DuplicateByHash(input.account, ctx.hash, input.seedId);
        r := Ok(if found.Some? then ctx.(duplicate := found) else ctx);
      case EncodeOriginal =>
        if w.encoded.None? {
          return Err;
        }
        r := Ok(ctx.(original := w.encoded));
      case SliceVideo =>
        if ctx.original.None? {
          return Ok(ctx);
        }
        r := if w.slices.Some? then Ok(ctx.(sliceCount := w.slices.value)) else Err;
      case CalcEmbeddings =>
        if input.kind.Video? && ctx.sliceCount == 0 {
          return Ok(ctx);
        }
        r := if w.embeddings.Some? then Ok(ctx.(embeddings := w.embeddings.value)) else Err;
      case CheckDuplicateByEmbedding =>
        if ctx.embeddings == [] {
          return if input.kind.Image? then Err else Ok(ctx);
        }
        if w.near.None? {
          return Err;
        }
        var found := Similar(View(), input, w.near.value);
        r := Ok(if w.near.value.Some? && (found.Some? || input.kind.Video?) then ctx.(duplicate := found) else ctx);
      case LlmExtract =>
        if (input.kind.Video? && ctx.sliceCount == 0) || w.texts.None? {
          return Err;
        }
        r := Ok(ctx.(texts := w.texts, perSlice := if input.kind.Video? then w.perSlice else []));
      case CreateThumbnail =>
        if ctx.original.None? {
          return Ok(ctx);
        }
        r := if w.thumbnail.Some? then Ok(ctx.(thumbnail := w.thumbnail)) else Err;
    }

    method ExtractMetadata(input: Input, policy: Policy, w: PipelineWorld) returns (r: Result<Context>)
      requires Keyed(View())
      ensures r == Extract(md5, View(), input, policy, w)
    {
      hide DoStep, Keyed;
      var ctx := StartContext(input);
      assert STEPS[0..] == STEPS;
      for i := 0 to |STEPS|
        invariant Extract(md5, View(), input, policy, w) == RunSteps(md5, View(), input, policy, w, STEPS[i..], ctx)
      {
        assert STEPS[i..][0] == STEPS[i] && STEPS[i..][1..] == STEPS[i + 1..];
        if !ForKind(STEPS[i], input.kind) {
          continue;
        }
        if !Allows(policy, STEPS[i], ctx) {
          continue;
        }
        var next := RunStep(input, w, STEPS[i], ctx);
        if next.Err? {
          return Err;
        }
        ctx := next.value;
      }
      r := Ok(ctx);
    }

    /** The media in the order in which they were made, up to the first failure. */
    method SaveArtifacts(d: Doc, ctx: Context, w: SaveWorld) returns (ok: bool)
      modifies this`bucket
      ensures ok <==> (ctx.original.Some? ==> w.original) && (ctx.thumbnail.Some? ==> w.thumbnail)
      ensures var first := PutMedium(old(bucket), KeyOf(d, Original), ctx.original, w.original);
              bucket == if ok then PutMedium(first, KeyOf(d, Thumbnail), ctx.thumbnail, true) else first
    {
      if ctx.original.Some? {
        if !w.original {
          return false;
        }
        bucket := bucket[KeyOf(d, Original) := ctx.original.value.content];
      }
      if ctx.thumbnail.Some? {
        if !w.thumbnail {
          return false;
        }
        bucket := bucket[KeyOf(d, Thumbnail) := ctx.thumbnail.value.content];
      }
      ok := true;
    }

    method SavePipeline(d: Doc, ctx: Context, c: SaveConfig, w: SaveWorld, now: int) returns (r: Result<Doc>)
      modifies this
      ensures (View(), r) == Save(old(View()), d, ctx, c, w, now)
    {
      hide NonEmpty, FlatText, UsableSize, KeyOf;
      var target := d;
      if c.hash {
        target := target.(hash := ctx.hash);
      }
      if c.extractor && ctx.texts.Some? {
        target := target.(result := FlatText(ctx.texts.value), resultData := ctx.texts, resultPerSlice := ctx.perSlice);
      }
      if c.artifacts {
        var stored := SaveArtifacts(d, ctx, w);
        if !stored {
          return Err;
        }
        target := target.(imageSize := UsableSize(ctx.original, target.imageSize),
                          thumbSize := UsableSize(ctx.thumbnail, target.thumbSize));
      }
      if c.embedding && ctx.embeddings != [] {
        target := target.(embeddings := NonEmpty(ctx.embeddings));
      }
      if !w.metadata {
        return Err;
      }
      target := target.(updated := now);
      index := index[target.imageId := target];
      r := Ok(target);
    }

    method CreateMeme(account: Id, kind: MetadataType, raw: Content, imageId: Id, s3Id: Id, now: int, w: CreateWorld)
      returns (r: Result<Created>)
      requires Keyed(View())
      modifies this
      ensures (View(), r) == Create(md5, old(View()), account, kind, raw, imageId, s3Id, now, w)
    {
      hide Extract, Save;
      var pipelineResult := ExtractMetadata(Input(account, kind, raw, None, []), Creating, w.pipeline);
      if pipelineResult.Err? {
        return Err;
      }
      var ctx := pipelineResult.value;
      if ctx.duplicate.Some? {
        return if w.urls then Ok(Created(ctx.duplicate.value, true)) else Err;
      }
      var saved := SavePipeline(BlankDoc(account, kind, imageId, s3Id, now), ctx, SAVE_ALL, w.save, now);
      if saved.Err? {
        return Err;
      }
      r := if w.urls then Ok(Created(saved.value, false)) else Err;
    }

    method UpdateMeme(u: UpdateInput, now: int, w: UpdateWorld) returns (r: Result<Doc>)
      modifies this
      ensures (View(), r) == Update(old(View()), u, now, w)
    {
      var found := Find(View(), u.account, u.id);
      if !w.lookup || found.None? {
        return Err;
      }
      var existing := Retexted(found.value, u);
      if u.original {
        if w.encodedOriginal.None? || !w.save.original {
          return Err;
        }
        bucket := bucket[KeyOf(existing, Original) := w.encodedOriginal.value.content];
        existing := existing.(imageSize := Some(w.encodedOriginal.value.size));
      }
      if u.thumbnail {
        if w.encodedThumbnail.None? || !w.save.thumbnail {
          return Err;
        }
        bucket := bucket[KeyOf(existing, Thumbnail) := w.encodedThumbnail.value.content];
        existing := existing.(thumbSize := Some(w.encodedThumbnail.value.size));
      }
      existing := existing.(edited := true);
      if !w.save.metadata {
        return Err;
      }
      existing := existing.(updated := now);
      index := index[existing.imageId := existing];
      r := if w.urls then Ok(existing) else Err;
    }

    method DeleteMeme(account: Id, id: Id, w: DeleteWorld) returns (r: Result<()>)
      modifies this
      ensures (View(), r) == Delete(old(View()), account, id, w)
    {
      var metadata := Find(View(), account, id);
      if !w.lookup || metadata.None? {
        return Err;
      }
      bucket := DropMedium(bucket, KeyOf(metadata.value, Original), w.original);
      bucket := DropMedium(bucket, KeyOf(metadata.value, Thumbnail), w.thumbnail);
      if !w.original || !w.thumbnail {
        return Err;
      }
      if !w.metadata {
        return Err;
      }
      index := index - {id};
      r := Ok(());
    }

    method RecomputeOne(d: Doc, o: Options, now: int, w: RecomputeWorld) returns (r: Result<()>)
      requires Keyed(View())
      modifies this
      ensures (View(), r) == Recompute(md5, old(View()), d, o, now, w)
    {
      hide Extract, Save;
      if !o.includeManualEdited && d.edited {
        return Ok(());
      }
      if !w.read || KeyOf(d, Original) !in bucket || !w.wrap {
        return Err;
      }
      var input := Input(d.accountId, d.kind, bucket[KeyOf(d, Original)], Some(d.imageId), d.embeddings);
      var pipelineResult := ExtractMetadata(input, Recomputing(o), w.pipeline);
      if pipelineResult.Err? {
        return Err;
      }
      var ctx := pipelineResult.value;
      if o.checkDuplicates && ctx.duplicate.Some? {
        if w.deletes.metadata && Find(View(), d.accountId, ctx.duplicate.value.imageId).Some? {
          index := index - {ctx.duplicate.value.imageId};
        }
        bucket := DropMedium(bucket, KeyOf(d, Original), w.deletes.original);
        bucket := DropMedium(bucket, KeyOf(d, Thumbnail), w.deletes.thumbnail);
        if !(w.deletes.metadata && w.deletes.original && w.deletes.thumbnail) {
          return Err;
        }
      }
      var saved := SavePipeline(d.(edited := false), ctx, RecomputeConfig(o), w.save, now);
      r := if saved.Ok? then Ok(()) else Err;
    }

    /** The inner loop of DeleteAll: failed deletes are only logged. */
    method DeletePage(account: Id, results: seq<Doc>, stuck: set<Id>, stuckMedia: set<MediaKey>)
      requires Keyed(View())
      requires forall i :: 0 <= i < |results| ==> results[i] in AccountDocs(index, account)
      modifies this
      ensures index == Surviving(old(index), results, stuck)
      ensures bucket == SurvivingMedia(old(bucket), results, stuckMedia)
    {
      assert results[..0] == [];
      NothingDeleted(View(), stuck, stuckMedia);
      hide Surviving, SurvivingMedia, DropMedium;
      for i := 0 to |results|
        invariant index == Surviving(old(index), results[..i], stuck)
        invariant bucket == SurvivingMedia(old(bucket), results[..i], stuckMedia)
      {
        var meta := results[i];
        bucket := DropMedium(bucket, KeyOf(meta, Original), KeyOf(meta, Original) !in stuckMedia);
        bucket := DropMedium(bucket, KeyOf(meta, Thumbnail), KeyOf(meta, Thumbnail) !in stuckMedia);
        FoundIfThere(old(index), index, results[..i], meta, account, stuck);
        if meta.imageId !in stuck && Find(View(), account, meta.imageId).Some? {
          index := index - {meta.imageId};
        }
        assert results[..i + 1] == results[..i] + [meta];
        SurvivingStep(old(index), results[..i], meta, stuck);
        SurvivingMediaStep(old(bucket), results[..i], meta, stuckMedia);
      }
      assert results[..|results|] == results;
    }

    /**
     Pages through the account by creation time and deletes each page behind the cursor. Failed deletes are only logged:
     stuck names the documents, stuckMedia the media, whose deletion fails. A query that fails ends it, with the pages
     before that query deleted.
     */
    method DeleteAll(account: Id, stuck: set<Id>, stuckMedia: set<MediaKey>, queryFails: Option<nat>)
      returns (r: Result<()>, ghost walk: seq<Fetch>)
      requires Keyed(View())
      modifies this
      ensures if r.Ok? then queryFails.None? || queryFails.value >= |walk| else queryFails == Some(|walk|)
      ensures r.Ok? ==> IsUndisturbedWalk(AccountDocs(old(index), account), CreatedDesc, 100, None, walk)
      ensures forall d :: d in Visited(walk) ==> d in AccountDocs(old(index), account)
      ensures index == Surviving(old(index), Visited(walk), stuck)
      ensures bucket == SurvivingMedia(old(bucket), Visited(walk), stuckMedia)
    {
      hide Keyed, IsPage, WalkSoFar, IsUndisturbedWalk;
      var sortKey: Option<int> := None;
      var pages := 0;
      ghost var docs := AccountDocs(index, account);
      walk := [];
      WalkStarts(docs, CreatedDesc, 100);
      while true
        invariant Keyed(View())
        invariant pages == |walk| && (queryFails.None? || queryFails.value >= pages)
        invariant WalkSoFar(docs, CreatedDesc, 100, walk, sortKey)
        invariant forall d :: d in Visited(walk) ==> d in docs && !After(sortKey, Rank(CreatedDesc, d))
        invariant index == Surviving(old(index), Visited(walk), stuck)
        invariant bucket == SurvivingMedia(old(bucket), Visited(walk), stuckMedia)
        decreases Eligible(docs, CreatedDesc, sortKey)
      {
        if queryFails == Some(pages) {
          return Err, walk;
        }
        pages := pages + 1;
        var accountDocs := AccountDocs(index, account);
        NothingLostAhead(old(index), Visited(walk), stuck, account, sortKey);
        var results := Query(accountDocs, CreatedDesc, sortKey, 100);
        PageFacts(accountDocs, sortKey, results);
        ghost var visited := Visited(walk);
        DeletePage(account, results, stuck, stuckMedia);
        SurvivingKeyed(old(View()), visited, results, stuck, bucket);
        SurvivingTwice(old(index), visited, results, stuck);
        SurvivingMediaTwice(old(bucket), visited, results, stuckMedia);
        VisitedAppend(walk, Fetch(accountDocs, results));
        WalkGoesOn(docs, CreatedDesc, 100, walk, sortKey, Fetch(accountDocs, results));
        walk := walk + [Fetch(accountDocs, results)];
        if |results| < 100 {
          return Ok(()), walk;
        }
        sortKey := NextKey(CreatedDesc, results);
      }
    }

    /** One exported document; a missing or unreadable medium fails the export. */
    method ExportOne(d: Doc, readable: bool) returns (r: Result<ExportItem>)
      ensures r == if readable && HasMedia(View(), d)
                   then Ok(ExportItem(d, bucket[KeyOf(d, Original)], bucket[KeyOf(d, Thumbnail)])) else Err
    {
      if !readable || KeyOf(d, Original) !in bucket || KeyOf(d, Thumbnail) !in bucket {
        return Err;
      }
      r := Ok(ExportItem(d, bucket[KeyOf(d, Original)], bucket[KeyOf(d, Thumbnail)]));
    }

    /**
     Hands every page to the callback: one account's documents by creation time, or all documents by image id. items is
     everything handed over. It goes on until a query or the callback fails, or a document of the next page has a medium
     that is missing or cannot be read.
     */
    method Export(account: Option<Id>, unreadable: set<Id>, queryFails: Option<nat>, callbackFails: Option<nat>)
      returns (r: Result<()>, items: seq<ExportItem>, ghost walk: seq<Fetch>)
      ensures r.Ok? ==> IsUndisturbedWalk(Exported(index, account), ExportOrder(account), 100, None, walk)
      ensures r.Ok? ==> queryFails.None? || queryFails.value >= |walk|
      ensures r.Ok? ==> forall k :: 0 <= k < |walk| && walk[k].page != [] ==> callbackFails != Some(k)
      ensures r.Err? ==> queryFails == Some(|walk|) || callbackFails == Some(|walk|)
                         || Unexportable(View(), account, unreadable)
      ensures MetadataOf(items) == Visited(walk)
      ensures forall i :: 0 <= i < |items| ==> IsExportOf(View(), account, unreadable, items[i])
    {
      hide IsPage, WalkSoFar, IsUndisturbedWalk, IsExportOf, Unexportable, Eligible, Visited, NextKey, Exported;
      var docs := Exported(index, account);
      var order := ExportOrder(account);
      var sortKey: Option<int> := None;
      var pages := 0;
      walk, items := [], [];
      WalkStarts(docs, order, 100);
      while true
        invariant WalkSoFar(docs, order, 100, walk, sortKey)
        invariant pages == |walk| && (queryFails.None? || queryFails.value >= pages)
        invariant forall k :: 0 <= k < |walk| && walk[k].page != [] ==> callbackFails != Some(k)
        invariant MetadataOf(items) == Visited(walk)
        invariant forall i :: 0 <= i < |items| ==> IsExportOf(View(), account, unreadable, items[i])
        decreases Eligible(docs, order, sortKey)
      {
        if queryFails == Some(pages) {
          return Err, items, walk;
        }
        var page := Query(docs, order, sortKey, 100);
        PageIsWithin(docs, order, sortKey, page);
        CursorMoves(docs, order, sortKey, page);
        ghost var before := walk;
        WalkGoesOn(docs, order, 100, walk, sortKey, Fetch(docs, page));
        VisitedAppend(walk, Fetch(docs, page));
        walk := walk + [Fetch(docs, page)];
        if |page| == 0 {
          assert Visited(walk) == Visited(before);
          return Ok(()), items, walk;
        }
        var pageItems := ExportPage(page, account, unreadable);
        if pageItems.Err? {
          return Err, items, before;
        }
        if callbackFails == Some(pages) {
          return Err, items, before;
        }
        pages := pages + 1;
        assert MetadataOf(items + pageItems.value) == MetadataOf(items) + MetadataOf(pageItems.value);
        items := items + pageItems.value;
        if |page| < 100 {
          return Ok(()), items, walk;
        }
        sortKey := NextKey(order, page);
      }
    }

    method ExportPage(page: seq<Doc>, account: Option<Id>, unreadable: set<Id>) returns (r: Result<seq<ExportItem>>)
      requires forall d :: d in page ==> d in Exported(index, account)
      ensures r.Ok? ==> MetadataOf(r.value) == page
      ensures r.Ok? ==> forall i :: 0 <= i < |page| ==> IsExportOf(View(), account, unreadable, r.value[i])
      ensures r.Err? ==> Unexportable(View(), account, unreadable)
    {
      hide KeyOf;
      var items: seq<ExportItem> := [];
      for i := 0 to |page|
        invariant |items| == i
        invariant forall k :: 0 <= k < i ==>
                    items[k].metadata == page[k] && IsExportOf(View(), account, unreadable, items[k])
      {
        assert page[i] in Exported(index, account);
        var item := ExportOne(page[i], page[i].imageId !in unreadable);
        if item.Err? {
          return Err;
        }
        items := items + [item.value];
      }
      r := Ok(items);
      assert MetadataOf(items) == page;
    }
  }

  // ---------------------------------------------------------------- what the paging loops achieve

  lemma AccountRanks(st: State, account: Id)
    requires Keyed(st)
    ensures DistinctRanks(ImageIdAsc, AllDocs(st.index))
    ensures forall id :: id in st.index ==>
              (st.index[id] in AccountDocs(st.index, account) <==> st.index[id].accountId == account)
  {
  }

  /** The account's documents, each once, the newest first. */
  ghost predicate IsNewestFirst(index: map<Id, Doc>, account: Id, docs: seq<Doc>) {
    && multiset(docs) == multiset(set id | id in index && index[id].accountId == account :: index[id])
    && forall i, j :: 0 <= i < j < |docs| ==> docs[i].created >= docs[j].created
  }

  /** All documents, each once, by ascending image id. */
  ghost predicate IsById(index: map<Id, Doc>, docs: seq<Doc>) {
    && multiset(docs) == multiset(index.Values)
    && forall i, j :: 0 <= i < j < |docs| ==> docs[i].imageId < docs[j].imageId
  }

  lemma NewestFirstAreHits(index: map<Id, Doc>, account: Id, docs: seq<Doc>)
    requires IsNewestFirst(index, account, docs)
    ensures IsHits(AccountDocs(index, account), CreatedDesc, None, docs)
  {
    assert Eligible(AccountDocs(index, account), CreatedDesc, None) == AccountDocs(index, account);
  }

  lemma ByIdAreHits(index: map<Id, Doc>, docs: seq<Doc>)
    requires IsById(index, docs)
    ensures IsHits(AllDocs(index), ImageIdAsc, None, docs) && AllDocs(index) == index.Values
  {
    assert Eligible(AllDocs(index), ImageIdAsc, None) == AllDocs(index);
  }

  lemma Survivor(index: map<Id, Doc>, deleted: seq<Doc>, account: Id, id: Id)
    requires id in index && index[id].accountId == account
    ensures index[id] !in deleted ==> index[id] in AccountDocs(Surviving(index, deleted, {}), account)
  {
    if index[id] !in deleted {
      assert id in Surviving(index, deleted, {});
    }
  }

  /**
   When every delete succeeds, DeleteAll empties the account exactly when no page boundary separates two documents
   created at the same time; other accounts keep every document, and no deleted document keeps a medium.
   */
  lemma DeleteAllEmptiesAccount(st: State, account: Id, walk: seq<Fetch>, newestFirst: seq<Doc>)
    requires Keyed(st)
    requires IsUndisturbedWalk(AccountDocs(st.index, account), CreatedDesc, 100, None, walk)
    requires IsNewestFirst(st.index, account, newestFirst)
    ensures var after := Surviving(st.index, Visited(walk), {});
            && ((forall id :: id in after ==> after[id].accountId != account) <==>
                  NoTieCut(CreatedDesc, 100, newestFirst))
            && (forall id :: id in st.index && st.index[id].accountId != account ==>
                  id in after && after[id] == st.index[id])
    ensures forall d, slot :: d in Visited(walk) ==> KeyOf(d, slot) !in SurvivingMedia(st.bucket, Visited(walk), {})
  {
    hide IsUndisturbedWalk, NoTieCut, Visited;
    var docs := AccountDocs(st.index, account);
    NewestFirstAreHits(st.index, account, newestFirst);
    WalkIsComplete(docs, CreatedDesc, 100, None, walk, newestFirst);
    VisitedAreAhead(docs, CreatedDesc, 100, None, walk);
    AccountRanks(st, account);
    CompleteMeansCovered(docs, walk, newestFirst);
    var after := Surviving(st.index, Visited(walk), {});
    if AccountDocs(after, account) == {} {
      forall d | d in docs
        ensures d in Visited(walk)
      {
        var id :| id in st.index && st.index[id].accountId == account && st.index[id] == d;
        Survivor(st.index, Visited(walk), account, id);
      }
    } else {
      var d :| d in AccountDocs(after, account);
      assert d in docs && d !in Visited(walk);
    }
    forall d, slot: Slot | d in Visited(walk)
      ensures KeyOf(d, slot) !in SurvivingMedia(st.bucket, Visited(walk), {})
    {
      var i: int :| 0 <= i < |Visited(walk)| && Visited(walk)[i] == d;
      assert slot == Original || slot == Thumbnail;
      assert IsMediumOf(Visited(walk), KeyOf(d, slot));
    }
  }

  /** A walk hands out each document at most once, so covering everything is being complete. */
  lemma CompleteMeansCovered(docs: set<Doc>, walk: seq<Fetch>, newestFirst: seq<Doc>)
    requires IsUndisturbedWalk(docs, CreatedDesc, 100, None, walk) && IsHits(docs, CreatedDesc, None, newestFirst)
    ensures (forall d :: d in docs ==> d in Visited(walk)) <==>
              multiset(Visited(walk)) == multiset(Eligible(docs, CreatedDesc, None))
  {
    hide Visited, IsUndisturbedWalk;
    var v := Visited(walk);
    assert Eligible(docs, CreatedDesc, None) == docs;
    VisitedAreAhead(docs, CreatedDesc, 100, None, walk);
    VisitedAreDistinct(docs, CreatedDesc, 100, None, walk);
    assert forall i, j :: 0 <= i < j < |v| ==> v[i] != v[j];
    if forall d :: d in docs ==> d in v {
      DistinctMultiset(v, docs);
    }
    if multiset(v) == multiset(docs) {
      assert forall d :: d in docs ==> d in multiset(v);
    }
  }

  lemma {:induction false} VisitedAreDistinct(docs: set<Doc>, o: Order, size: nat, after: Option<int>, walk: seq<Fetch>)
    requires size >= 1 && IsUndisturbedWalk(docs, o, size, after, walk)
    ensures forall i, j :: 0 <= i < j < |Visited(walk)| ==> Visited(walk)[i] != Visited(walk)[j]
    decreases |walk|
  {
    hide Visited, IsUndisturbedWalk;
    var h := FirstPage(docs, o, size, after, walk);
    HitsAreDistinct(docs, o, after, h);
    EligibleOrder(docs, o, after, h);
    if |h| >= size {
      VisitedAreDistinct(docs, o, size, Some(Rank(o, h[size - 1])), walk[1..]);
      VisitedAreAhead(docs, o, size, Some(Rank(o, h[size - 1])), walk[1..]);
    }
  }

  /** An export of all accounts that succeeds hands over every document once, by ascending image id. */
  lemma ExportAllIsComplete(st: State, walk: seq<Fetch>, byId: seq<Doc>)
    requires Keyed(st)
    requires IsUndisturbedWalk(Exported(st.index, None), ExportOrder(None), 100, None, walk)
    requires IsById(st.index, byId)
    ensures Visited(walk) == byId
    ensures multiset(Visited(walk)) == multiset(st.index.Values)
  {
    AccountRanks(st, 0);
    ByIdAreHits(st.index, byId);
    WalkYieldsListing(AllDocs(st.index), ImageIdAsc, 100, None, walk, byId);
  }

  /**
   An export of one account that succeeds hands over documents of that account alone, none twice; each of them exactly
   when no page boundary separates two documents created at the same time; and, with distinct creation times, the newest
   first.
   */
  lemma ExportAccountIsComplete(st: State, account: Id, walk: seq<Fetch>, newestFirst: seq<Doc>)
    requires Keyed(st)
    requires IsUndisturbedWalk(Exported(st.index, Some(account)), ExportOrder(Some(account)), 100, None, walk)
    requires IsNewestFirst(st.index, account, newestFirst)
    ensures forall d :: d in Visited(walk) ==> d.accountId == account && d in st.index.Values
    ensures forall i, j :: 0 <= i < j < |Visited(walk)| ==> Visited(walk)[i] != Visited(walk)[j]
    ensures (forall id :: id in st.index && st.index[id].accountId == account ==> st.index[id] in Visited(walk))
       <==> NoTieCut(CreatedDesc, 100, newestFirst)
    ensures (forall i, j :: 0 <= i < j < |newestFirst| ==> newestFirst[i].created != newestFirst[j].created) ==>
              Visited(walk) == newestFirst
  {
    var docs := AccountDocs(st.index, account);
    NewestFirstAreHits(st.index, account, newestFirst);
    AccountRanks(st, account);
    assert forall d :: d in docs ==> d.accountId == account && d in st.index.Values;
    hide IsUndisturbedWalk, NoTieCut, Visited, IsHits, Rank;
    WalkIsComplete(docs, CreatedDesc, 100, None, walk, newestFirst);
    VisitedAreAhead(docs, CreatedDesc, 100, None, walk);
    VisitedAreDistinct(docs, CreatedDesc, 100, None, walk);
    CompleteMeansCovered(docs, walk, newestFirst);
    if forall i, j :: 0 <= i < j < |newestFirst| ==> newestFirst[i].created != newestFirst[j].created {
      DistinctTimes(docs, newestFirst);
      WalkYieldsListing(docs, CreatedDesc, 100, None, walk, newestFirst);
    }
  }

  lemma DistinctTimes(docs: set<Doc>, newestFirst: seq<Doc>)
    requires IsHits(docs, CreatedDesc, None, newestFirst)
    requires forall i, j :: 0 <= i < j < |newestFirst| ==> newestFirst[i].created != newestFirst[j].created
    ensures DistinctRanks(CreatedDesc, docs)
  {
    HitsAreDistinct(docs, CreatedDesc, None, newestFirst);
    forall d, e | d in docs && e in docs && d.created == e.created
      ensures d == e
    {
      assert d in newestFirst && e in newestFirst;
    }
  }
}
