/** What every sequence of library operations keeps, whatever the oracles answer. */
module LibraryRuns {
  import opened GoText
  import opened Entities
  import opened LibraryState
  import opened PipelineMeaning

  // ---------------------------------------------------------------- invariants

  ghost predicate Keyed(st: State) {
    && (forall id :: id in st.index ==> st.index[id].imageId == id)
    && (forall a, b :: a in st.index && b in st.index && st.index[a].s3Id == st.index[b].s3Id ==> a == b)
  }

  predicate SameBytes(d: Doc, e: Doc) {
    d.accountId == e.accountId && d.hash == e.hash
  }

  /** No two documents of one account share a hash. */
  ghost predicate HashUnique(st: State) {
    forall a, b :: a in st.index && b in st.index && SameBytes(st.index[a], st.index[b]) ==> a == b
  }

  predicate HasMedia(st: State, d: Doc) {
    KeyOf(d, Original) in st.bucket && KeyOf(d, Thumbnail) in st.bucket
  }

  /** Every indexed document has its original and its thumbnail in the bucket. */
  ghost predicate MediaPresent(st: State) {
    forall id :: id in st.index ==> HasMedia(st, st.index[id])
  }

  /** Only media of this s3 id differ. */
  ghost predicate SameElsewhere(b: map<MediaKey, Content>, b': map<MediaKey, Content>, s3Id: Id) {
    forall key: MediaKey :: key.s3Id != s3Id ==> (key in b <==> key in b') && (key in b ==> b[key] == b'[key])
  }

  /** The rendition is stored under this key. */
  predicate Holds(b: map<MediaKey, Content>, key: MediaKey, r: Option<Rendition>) {
    r.Some? && key in b && b[key] == r.value.content
  }

  predicate TextAgrees(d: Doc) {
    && d.resultData.Some?
    && var t := d.resultData.value; d.result == t.onScreenText + " " + t.audioTranscript + " " + t.audioTrack
  }

  /** The flat search text is the structured texts, joined. */
  ghost predicate TextsAgree(st: State) {
    forall id :: id in st.index ==> TextAgrees(st.index[id])
  }

  // ---------------------------------------------------------------- what a pipeline's results become

  /** Only embeddings with data are kept, in their order: list by list, and item by item. */
  lemma {:induction false} NonEmptySplits(a: seq<EmbeddingItem>, b: seq<EmbeddingItem>)
    ensures NonEmpty(a + b) == NonEmpty(a) + NonEmpty(b)
  {
    hide NonEmpty;
    if a == [] {
      assert a + b == b;
      NonEmptyItems(a);
    } else {
      NonEmptySplits(a[1..], b);
      NonEmptyHead(a);
      NonEmptyHead(a + b);
      assert (a + b)[1..] == a[1..] + b;
    }
  }

  lemma NonEmptyHead(items: seq<EmbeddingItem>)
    requires items != []
    ensures NonEmpty(items) == (if items[0].data == [] then [] else [items[0]]) + NonEmpty(items[1..])
  {
  }

  lemma NonEmptyItems(items: seq<EmbeddingItem>)
    ensures items == [] ==> NonEmpty(items) == []
    ensures |items| == 1 ==> NonEmpty(items) == if items[0].data == [] then [] else items
  {
    if |items| == 1 {
      assert items[1..] == [];
    }
  }

  /** The document knows the medium's size, if it has any width; otherwise the size is as it was. */
  predicate KnowsSize(r: Option<Rendition>, before: Option<Sizes>, after: Option<Sizes>) {
    r.Some? && after == if r.value.size.width > 0 then Some(r.value.size) else before
  }

  // ---------------------------------------------------------------- create

  /** Random ids are new. */
  ghost predicate Fresh(st: State, imageId: Id, s3Id: Id) {
    imageId !in st.index && forall id :: id in st.index ==> st.index[id].s3Id != s3Id
  }

  predicate SavesAll(w: SaveWorld) {
    w.original && w.thumbnail && w.metadata
  }

  /**
   A create adds one complete document, new to its account by hash and similarity, exactly when its bytes are new, every
   call of its pipeline goes well and everything is stored, and leaves the index as it was otherwise. Bytes that are a
   duplicate leave the bucket as it was, too. It succeeds exactly when, besides, the urls can be made, and then answers
   the new document or the duplicate.
   */
  lemma CreateOutcome(md5: Content -> string, st: State, account: Id, kind: MetadataType, raw: Content,
                      imageId: Id, s3Id: Id, now: int, w: CreateWorld)
    requires Keyed(st) && Fresh(st, imageId, s3Id)
    ensures var (t, r) := Create(md5, st, account, kind, raw, imageId, s3Id, now, w);
            var duplicated := IsDuplicated(md5, st, account, kind, raw, w.pipeline);
            var added := IsNew(md5, st, account, kind, raw, w.pipeline) && SavesAll(w.save);
            && (forall key :: key in st.bucket ==> key in t.bucket)
            && SameElsewhere(st.bucket, t.bucket, s3Id)
            && (r.Ok? <==> (duplicated || added) && w.urls)
            && (duplicated ==> t == st)
            && (r.Ok? && duplicated ==>
                  r.value.duplicated && IsDuplicate(md5, st, account, raw, w.pipeline, r.value.doc))
            && (!added ==> t.index == st.index)
            && (added ==>
                  && imageId in t.index && t.index == st.index[imageId := t.index[imageId]]
                  && (r.Ok? ==> r.value == Created(t.index[imageId], false))
                  && IsCreated(t.index[imageId], account, kind, md5(raw), imageId, s3Id, now, w.pipeline)
                  && Holds(t.bucket, KeyOf(t.index[imageId], Original), w.pipeline.encoded)
                  && Holds(t.bucket, KeyOf(t.index[imageId], Thumbnail), w.pipeline.thumbnail))
  {
    hide Extract, IsDuplicated, IsDuplicate, IsNew;
    CreatePipeline(md5, st, Input(account, kind, raw, None, []), w.pipeline);
    if IsNew(md5, st, account, kind, raw, w.pipeline) {
      NewIsComplete(md5, st, account, kind, raw, w.pipeline);
    }
  }

  /** A new document has what the pipeline made of its bytes. */
  predicate IsCreated(d: Doc, account: Id, kind: MetadataType, hash: string, imageId: Id, s3Id: Id, now: int,
                      w: PipelineWorld) {
    && d.imageId == imageId && d.s3Id == s3Id && d.accountId == account && d.kind == kind && d.hash == hash
    && d.created == now && d.updated == now && !d.edited
    && TextAgrees(d) && d.resultData == w.texts && d.resultPerSlice == (if kind.Video? then w.perSlice else [])
    && w.embeddings.Some? && d.embeddings == NonEmpty(w.embeddings.value)
    && KnowsSize(w.encoded, None, d.imageSize) && KnowsSize(w.thumbnail, None, d.thumbSize)
  }

  lemma NewIsComplete(md5: Content -> string, st: State, account: Id, kind: MetadataType, raw: Content,
                      w: PipelineWorld)
    requires IsNew(md5, st, account, kind, raw, w)
    ensures w.embeddings.Some? && w.texts.Some? && w.encoded.Some? && w.thumbnail.Some?
    ensures !IsDuplicated(md5, st, account, kind, raw, w)
  {
  }

  /**
   A create that reports an error has left the index unchanged, unless every store call went through and only the
   presigned urls of the new document could not be made: then the document is there although the caller is told of an
   error.
   */
  lemma FailedCreateLeavesIndex(md5: Content -> string, st: State, account: Id, kind: MetadataType, raw: Content,
                                imageId: Id, s3Id: Id, now: int, w: CreateWorld)
    requires Keyed(st) && Fresh(st, imageId, s3Id)
    requires Create(md5, st, account, kind, raw, imageId, s3Id, now, w).1.Err?
    ensures Create(md5, st, account, kind, raw, imageId, s3Id, now, w).0.index == st.index
       <==> !IsNew(md5, st, account, kind, raw, w.pipeline) || !SavesAll(w.save)
  {
    hide Create, IsNew, IsDuplicated, IsDuplicate, IsCreated;
    CreateOutcome(md5, st, account, kind, raw, imageId, s3Id, now, w);
  }

  /**
   Bytes whose hash the account already has yield that very document and change nothing; the answer is an error exactly
   when the bytes cannot be read, the hash not be looked up, or the urls not be made.
   */
  lemma RecreateFindsOriginal(md5: Content -> string, st: State, account: Id, kind: MetadataType, raw: Content,
                              imageId: Id, s3Id: Id, now: int, w: CreateWorld, id: Id)
    requires Keyed(st) && HashUnique(st)
    requires id in st.index && st.index[id].accountId == account && st.index[id].hash == md5(raw)
    ensures Create(md5, st, account, kind, raw, imageId, s3Id, now, w)
         == (st, if w.pipeline.readable && w.pipeline.hashQuery && w.urls then Ok(Created(st.index[id], true)) else Err)
  {
    hide Extract, Save;
    CreatePipeline(md5, st, Input(account, kind, raw, None, []), w.pipeline);
    assert IsKnown(md5, st, account, raw, None);
  }

  /** New bytes that resemble a document of the account, image or video, yield that document and change nothing. */
  lemma SimilarIsAnswered(md5: Content -> string, st: State, account: Id, kind: MetadataType, raw: Content,
                          imageId: Id, s3Id: Id, now: int, w: CreateWorld, id: Id)
    requires w.pipeline.readable && w.pipeline.hashQuery && w.pipeline.encoded.Some?
    requires forall other :: other in st.index && st.index[other].accountId == account ==>
               st.index[other].hash != md5(raw)
    requires w.pipeline.embeddings.Some? && w.pipeline.embeddings.value != []
    requires kind.Video? ==> w.pipeline.slices.Some? && w.pipeline.slices.value > 0
    requires w.pipeline.near == Some(Some(id)) && id in st.index && st.index[id].accountId == account
    ensures Create(md5, st, account, kind, raw, imageId, s3Id, now, w)
         == (st, if w.urls then Ok(Created(st.index[id], true)) else Err)
  {
    hide Extract, Save;
    CreatePipeline(md5, st, Input(account, kind, raw, None, []), w.pipeline);
  }

  // ---------------------------------------------------------------- runs

  datatype Op =
    | DoCreate(account: Id, kind: MetadataType, raw: Content, imageId: Id, s3Id: Id, now: int, create: CreateWorld)
    | DoUpdate(input: UpdateInput, now: int, update: UpdateWorld)
    | DoDelete(account: Id, id: Id, delete: DeleteWorld)
    | DoRecompute(id: Id, options: Options, now: int, recompute: RecomputeWorld)

  /** A recompute works on a document the index holds. */
  ghost predicate Legal(st: State, op: Op) {
    match op
    case DoCreate(_, _, _, imageId, s3Id, _, _) => Fresh(st, imageId, s3Id)
    case DoRecompute(id, _, _, _) => id in st.index
    case _ => true
  }

  ghost function Apply(md5: Content -> string, st: State, op: Op): State
    requires Legal(st, op)
  {
    match op
    case DoCreate(account, kind, raw, imageId, s3Id, now, w) =>
      Create(md5, st, account, kind, raw, imageId, s3Id, now, w).0
    case DoUpdate(input, now, w) => Update(st, input, now, w).0
    case DoDelete(account, id, w) => Delete(st, account, id, w).0
    case DoRecompute(id, o, now, w) => Recompute(md5, st, st.index[id], o, now, w).0
  }

  /** The states of a run, each reached from the one before by an operation. */
  ghost predicate IsRun(md5: Content -> string, ops: seq<Op>, states: seq<State>) {
    && |states| == |ops| + 1
    && forall i :: 0 <= i < |ops| ==> Legal(states[i], ops[i]) && states[i + 1] == Apply(md5, states[i], ops[i])
  }

  /** Everything up to the store's last word goes well. */
  predicate Updates(st: State, u: UpdateInput, w: UpdateWorld) {
    && w.lookup && u.id in st.index && st.index[u.id].accountId == u.account
    && (u.original ==> w.encodedOriginal.Some? && w.save.original)
    && (u.thumbnail ==> w.encodedThumbnail.Some? && w.save.thumbnail)
    && w.save.metadata
  }

  /**
   An update rewrites its document exactly when lookup, the encodings and saves that were asked for, and the document's
   save go through; it succeeds exactly when, besides, the urls can be made. A rewritten document has the given texts
   and media and is otherwise the old one, marked as edited.
   */
  lemma UpdateOutcome(st: State, u: UpdateInput, now: int, w: UpdateWorld)
    requires Keyed(st)
    ensures var (t, r) := Update(st, u, now, w);
            && (forall key :: key in st.bucket ==> key in t.bucket)
            && (r.Ok? <==> Updates(st, u, w) && w.urls)
            && (r.Ok? ==> u.id in t.index && r.value == t.index[u.id])
            && (!Updates(st, u, w) ==> t.index == st.index)
            && (Updates(st, u, w) ==>
                  && u.id in st.index && t.index == st.index[u.id := t.index[u.id]]
                  && var d, d' := st.index[u.id], t.index[u.id];
                     && d' == d.(result := d'.result, resultData := d'.resultData, imageSize := d'.imageSize,
                                 thumbSize := d'.thumbSize, edited := true, updated := now)
                     && (TextAgrees(d) ==> TextAgrees(d')) && HasTexts(d, d', u)
                     && HasMedium(u.original, w.encodedOriginal, t.bucket, KeyOf(d, Original), d.imageSize,
                                  d'.imageSize)
                     && HasMedium(u.thumbnail, w.encodedThumbnail, t.bucket, KeyOf(d, Thumbnail), d.thumbSize,
                                  d'.thumbSize))
            && (t.bucket != st.bucket ==>
                  && u.id in st.index && st.index[u.id].accountId == u.account
                  && SameElsewhere(st.bucket, t.bucket, st.index[u.id].s3Id))
  {
    hide Update, Updates, HasTexts, HasMedium, TextAgrees, SameElsewhere;
    if Updates(st, u, w) {
      UpdateWrites(st, u, now, w);
      UpdateStoresMedia(st, u, now, w);
    } else {
      UpdateStops(st, u, now, w);
    }
  }

  lemma UpdateWrites(st: State, u: UpdateInput, now: int, w: UpdateWorld)
    requires Keyed(st) && Updates(st, u, w)
    ensures var (t, r) := Update(st, u, now, w);
            && u.id in st.index && t.index == st.index[u.id := t.index[u.id]]
            && r == (if w.urls then Ok(t.index[u.id]) else Err)
            && var d, d' := st.index[u.id], t.index[u.id];
               && d' == d.(result := d'.result, resultData := d'.resultData, imageSize := d'.imageSize,
                           thumbSize := d'.thumbSize, edited := true, updated := now)
               && (TextAgrees(d) ==> TextAgrees(d')) && HasTexts(d, d', u)
  {
    RetextedAgrees(st.index[u.id], u);
    hide Retexted, HasTexts, FlatText, PutMedium, KeyOf;
  }

  lemma UpdateStoresMedia(st: State, u: UpdateInput, now: int, w: UpdateWorld)
    requires Keyed(st) && Updates(st, u, w)
    ensures var t := Update(st, u, now, w).0;
            && u.id in st.index && u.id in t.index && st.index[u.id].accountId == u.account
            && (forall key :: key in st.bucket ==> key in t.bucket)
            && SameElsewhere(st.bucket, t.bucket, st.index[u.id].s3Id)
            && var d, d' := st.index[u.id], t.index[u.id];
               && HasMedium(u.original, w.encodedOriginal, t.bucket, KeyOf(d, Original), d.imageSize, d'.imageSize)
               && HasMedium(u.thumbnail, w.encodedThumbnail, t.bucket, KeyOf(d, Thumbnail), d.thumbSize, d'.thumbSize)
  {
    RetextedAgrees(st.index[u.id], u);
    hide Retexted, HasTexts, FlatText, TextAgrees;
  }

  lemma UpdateStops(st: State, u: UpdateInput, now: int, w: UpdateWorld)
    requires !Updates(st, u, w)
    ensures var (t, r) := Update(st, u, now, w);
            && r.Err? && t.index == st.index
            && (forall key :: key in st.bucket ==> key in t.bucket)
            && (t.bucket != st.bucket ==>
                  && u.id in st.index && st.index[u.id].accountId == u.account
                  && SameElsewhere(st.bucket, t.bucket, st.index[u.id].s3Id))
  {
    hide Retexted;
  }

  /** A medium that was given is stored and the document knows its size; otherwise the size is as it was. */
  predicate HasMedium(given: bool, r: Option<Rendition>, b: map<MediaKey, Content>, key: MediaKey,
                      before: Option<Sizes>, after: Option<Sizes>) {
    if given then Holds(b, key, r) && after == Some(r.value.size) else after == before
  }

  lemma RetextedAgrees(d: Doc, u: UpdateInput)
    ensures var d' := Retexted(d, u);
            && d' == d.(result := d'.result, resultData := d'.resultData)
            && (TextAgrees(d) ==> TextAgrees(d')) && HasTexts(d, d', u)
  {
  }

  /** Each text that was given is there, and each that was not is as it was, or empty if there was none. */
  predicate HasTexts(d: Doc, d': Doc, u: UpdateInput) {
    && d'.resultData.Some?
    && var t, t' := if d.resultData.Some? then d.resultData.value else Texts("", "", "", ""), d'.resultData.value;
       && (if u.onScreenText.Some? then Some(t'.onScreenText) == u.onScreenText else t'.onScreenText == t.onScreenText)
       && (if u.audioTranscript.Some? then Some(t'.audioTranscript) == u.audioTranscript
           else t'.audioTranscript == t.audioTranscript)
       && (if u.audioTrack.Some? then Some(t'.audioTrack) == u.audioTrack else t'.audioTrack == t.audioTrack)
       && (if u.caption.Some? then Some(t'.caption) == u.caption else t'.caption == t.caption)
  }

  lemma DeleteOutcome(st: State, account: Id, id: Id, w: DeleteWorld)
    requires Keyed(st)
    ensures var (t, r) := Delete(st, account, id, w);
            && (r.Ok? <==> w.lookup && id in st.index && st.index[id].accountId == account
                           && w.original && w.thumbnail && w.metadata)
            && t.index == (if r.Ok? then st.index - {id} else st.index)
            && (forall d, slot :: d in st.index.Values && d.imageId != id && KeyOf(d, slot) in st.bucket ==>
                  KeyOf(d, slot) in t.bucket)
            && (t.bucket != st.bucket ==>
                  && id in st.index && st.index[id].accountId == account
                  && SameElsewhere(st.bucket, t.bucket, st.index[id].s3Id))
            && (r.Ok? ==>
                  && id in st.index
                  && KeyOf(st.index[id], Original) !in t.bucket && KeyOf(st.index[id], Thumbnail) !in t.bucket)
  {
    var t := Delete(st, account, id, w).0;
    forall d, slot | d in st.index.Values && d.imageId != id && KeyOf(d, slot) in st.bucket
      ensures KeyOf(d, slot) in t.bucket
    {
      if id in st.index {
        assert st.index[d.imageId] == d && st.index[id].s3Id != d.s3Id;
      }
    }
  }

  /** A recompute passes over documents edited by hand unless told otherwise. */
  predicate PassesOver(d: Doc, o: Options) {
    d.edited && !o.includeManualEdited
  }

  /** What a recompute gives to the pipeline: the stored original. */
  function InputOf(st: State, d: Doc): Input
    requires KeyOf(d, Original) in st.bucket
  {
    Input(d.accountId, d.kind, st.bucket[KeyOf(d, Original)], Some(d.imageId), d.embeddings)
  }

  /** The original can be read, and the pipeline goes through. */
  predicate GoesAsFar(st: State, d: Doc, o: Options, w: RecomputeWorld) {
    !PassesOver(d, o) && w.read && KeyOf(d, Original) in st.bucket && w.wrap
      && GoesThrough(InputOf(st, d), o, w.pipeline)
  }

  lemma DuplicateExists(md5: Content -> string, st: State, input: Input, o: Options, w: PipelineWorld)
    ensures exists dup :: IsDuplicateAgain(md5, st, input, o, w, dup)
  {
    hide IsKnown, IsTwin, SameHash, FindsSimilar;
    TwinIsHighest(md5, st, input.account, input.raw, input.seedId);
    var found := HighestId(SameHash(st, input.account, md5(input.raw), input.seedId));
    if EmbeddingsAgain(input, o, w) != [] && FindsSimilar(st, input.account, input.seedId, w) {
      assert w.near.Some? && w.near.value.Some? && w.near.value.value in st.index by { SimilarIsThere(st, input, w); }
      assert IsDuplicateAgain(md5, st, input, o, w, Some(st.index[w.near.value.value]));
    } else if EmbeddingsAgain(input, o, w) != [] && input.kind.Video? && w.near.Some? && w.near.value.Some? {
      assert IsDuplicateAgain(md5, st, input, o, w, None);
    } else {
      assert IsDuplicateAgain(md5, st, input, o, w, found);
    }
  }

  lemma SimilarIsThere(st: State, input: Input, w: PipelineWorld)
    requires FindsSimilar(st, input.account, input.seedId, w)
    ensures w.near.Some? && w.near.value.Some? && w.near.value.value in st.index
  {
  }

  /** The duplicate a recompute is to remove. */
  ghost function Duplicate(md5: Content -> string, st: State, d: Doc, o: Options, w: RecomputeWorld): (dup: Option<Doc>)
    ensures if GoesAsFar(st, d, o, w) && o.checkDuplicates
            then IsDuplicateAgain(md5, st, InputOf(st, d), o, w.pipeline, dup) else dup.None?
  {
    if GoesAsFar(st, d, o, w) && o.checkDuplicates then
      DuplicateExists(md5, st, InputOf(st, d), o, w.pipeline);
      var dup :| IsDuplicateAgain(md5, st, InputOf(st, d), o, w.pipeline, dup);
      dup
    else None
  }

  lemma DuplicateIsOne(md5: Content -> string, st: State, input: Input, o: Options, w: PipelineWorld,
                       one: Option<Doc>, two: Option<Doc>)
    requires Keyed(st) && IsDuplicateAgain(md5, st, input, o, w, one) && IsDuplicateAgain(md5, st, input, o, w, two)
    ensures one == two
    ensures one.Some? ==> && one.value.imageId in st.index && st.index[one.value.imageId] == one.value
                          && one.value.accountId == input.account && Some(one.value.imageId) != input.seedId
  {
  }

  predicate DeletesAll(w: DeleteWorld) {
    w.original && w.thumbnail && w.metadata
  }

  /** The pipeline runs through, a duplicate is removed, and everything selected is stored. */
  ghost predicate Recomputes(md5: Content -> string, st: State, d: Doc, o: Options, w: RecomputeWorld) {
    && GoesAsFar(st, d, o, w)
    && (Duplicate(md5, st, d, o, w).Some? ==> DeletesAll(w.deletes))
    && (o.updateStorageItems ==> w.save.original && w.save.thumbnail) && w.save.metadata
  }

  /** The documents a recompute removes. */
  ghost function Removed(md5: Content -> string, st: State, d: Doc, o: Options, w: RecomputeWorld): set<Id> {
    var dup := Duplicate(md5, st, d, o, w);
    if dup.Some? && w.deletes.metadata then {dup.value.imageId} else {}
  }

  /**
   A recompute that removes a duplicate keeps its own media only by storing them again, or by failing to delete either.
   */
  ghost predicate KeepsOwnMedia(md5: Content -> string, st: State, d: Doc, o: Options, w: RecomputeWorld) {
    Duplicate(md5, st, d, o, w).Some? ==>
      if DeletesAll(w.deletes) then o.updateStorageItems && w.save.original && w.save.thumbnail
      else !w.deletes.original && !w.deletes.thumbnail
  }

  /**
   A recompute succeeds exactly when it passes its document over or everything goes well, and in the second case it
   rewrites that document: the groups it was asked for, from what the pipeline made. Of the others it changes none, and
   removes the duplicate at most.
   */
  lemma RecomputeOutcome(md5: Content -> string, st: State, id: Id, o: Options, now: int, w: RecomputeWorld)
    requires Keyed(st) && id in st.index
    ensures var d := st.index[id];
            var (t, r) := Recompute(md5, st, d, o, now, w);
            var dup, rewrites := Duplicate(md5, st, d, o, w), Recomputes(md5, st, d, o, w);
            var left := st.index - Removed(md5, st, d, o, w);
            && (dup.Some? ==>
                  && dup.value.imageId != id && dup.value.imageId in st.index
                  && st.index[dup.value.imageId] == dup.value && dup.value.accountId == d.accountId)
            && SameElsewhere(st.bucket, t.bucket, d.s3Id)
            && (dup.None? ==> forall key :: key in st.bucket ==> key in t.bucket)
            && (dup.None? && !o.updateStorageItems ==> t.bucket == st.bucket)
            && (HasMedia(st, d) ==> (HasMedia(t, d) <==> KeepsOwnMedia(md5, st, d, o, w)))
            && (r.Ok? <==> PassesOver(d, o) || rewrites)
            && (PassesOver(d, o) ==> t == st)
            && id in t.index && t.index == (if rewrites then left[id := t.index[id]] else left)
            && (rewrites ==>
                  && IsRecomputed(d, t.index[id], md5(st.bucket[KeyOf(d, Original)]),
                                  EmbeddingsAgain(InputOf(st, d), o, w.pipeline), o, now, w.pipeline)
                  && (TextAgrees(d) ==> TextAgrees(t.index[id]))
                  && (o.updateStorageItems ==>
                        && Holds(t.bucket, KeyOf(d, Original), w.pipeline.encoded)
                        && Holds(t.bucket, KeyOf(d, Thumbnail), w.pipeline.thumbnail)))
  {
    hide Recompute, Save, Written, IsRecomputed, TextAgrees, Keyed, EmbeddingsAgain, SlicesAgain, GoesThrough,
    Duplicate;
    var d := st.index[id];
    IdOf(st, id);
    var ctx := RecomputeUnfolds(md5, st, id, o, now, w);
    if GoesAsFar(st, d, o, w) {
      var dup := Duplicate(md5, st, d, o, w);
      MediaAreMade(InputOf(st, d), o, w.pipeline);
      WrittenSelectively(d, ctx, o, now, w.pipeline);
      var st1 := if dup.Some? then DropDuplicate(st, d, dup.value, w.deletes) else st;
      SaveOutcome(st1, d.(edited := false), ctx, RecomputeConfig(o), w.save, now);
      RetainsTexts(d, Written(d.(edited := false), ctx, RecomputeConfig(o), now), ctx, o, now, w.pipeline);
    }
  }

  /** A recompute that gets as far as the pipeline's end drops the duplicate, if there is one, and then saves. */
  lemma RecomputeUnfolds(md5: Content -> string, st: State, id: Id, o: Options, now: int, w: RecomputeWorld)
    returns (ctx: Context)
    requires Keyed(st) && id in st.index
    ensures var d := st.index[id];
            var answer, dup := Recompute(md5, st, d, o, now, w), Duplicate(md5, st, d, o, w);
            if !GoesAsFar(st, d, o, w) then dup.None? && answer == (st, if PassesOver(d, o) then Ok(()) else Err)
            else
              && EndsAgain(md5, st, InputOf(st, d), o, w.pipeline, ctx) && ctx.duplicate == dup
              && (dup.Some? ==>
                    && dup.value.imageId != id && dup.value.imageId in st.index
                    && st.index[dup.value.imageId] == dup.value && dup.value.accountId == d.accountId)
              && var st1 := if dup.Some? then DropDuplicate(st, d, dup.value, w.deletes) else st;
                 if dup.Some? && !DeletesAll(w.deletes) then answer == (st1, Err)
                 else var (t, saved) := Save(st1, d.(edited := false), ctx, RecomputeConfig(o), w.save, now);
                      answer == (t, if saved.Ok? then Ok(()) else Err)
  {
    hide Extract, Save, Keyed, IsDuplicateAgain, GoesThrough, EmbeddingsAgain, SlicesAgain, DropDuplicate;
    var d := st.index[id];
    IdOf(st, id);
    ctx := StartContext(Input(0, Image, [], None, []));
    if !PassesOver(d, o) && w.read && KeyOf(d, Original) in st.bucket && w.wrap {
      var input := InputOf(st, d);
      RecomputePipeline(md5, st, input, o, w.pipeline);
      if GoesThrough(input, o, w.pipeline) {
        ctx := Extract(md5, st, input, Recomputing(o), w.pipeline).value;
        if o.checkDuplicates {
          DuplicateIsOne(md5, st, input, o, w.pipeline, Duplicate(md5, st, d, o, w), ctx.duplicate);
        }
      }
    }
  }

  lemma RetainsTexts(d: Doc, d': Doc, ctx: Context, o: Options, now: int, w: PipelineWorld)
    requires IsRecomputed(d, d', ctx.hash, ctx.embeddings, o, now, w)
    ensures TextAgrees(d) ==> TextAgrees(d')
  {
    hide NonEmpty;
  }

  lemma MediaAreMade(input: Input, o: Options, w: PipelineWorld)
    requires GoesThrough(input, o, w)
    ensures w.encoded.Some? && w.thumbnail.Some? && (o.computeExtractor ==> w.texts.Some?)
  {
  }

  lemma IdOf(st: State, id: Id)
    requires Keyed(st) && id in st.index
    ensures st.index[id].imageId == id
  {
  }

  /**
   Saving a pipeline's media and document succeeds exactly when each store call asked for does, and then both are there.
   */
  lemma SaveOutcome(st: State, d: Doc, ctx: Context, c: SaveConfig, w: SaveWorld, now: int)
    requires ctx.original.Some? && ctx.thumbnail.Some?
    ensures var (t, r) := Save(st, d, ctx, c, w, now);
            && (forall key :: key in st.bucket ==> key in t.bucket)
            && (if c.artifacts then SameElsewhere(st.bucket, t.bucket, d.s3Id) else t.bucket == st.bucket)
            && (KeyOf(d, Original) in t.bucket <==> KeyOf(d, Original) in st.bucket || (c.artifacts && w.original))
            && (KeyOf(d, Thumbnail) in t.bucket <==>
                  KeyOf(d, Thumbnail) in st.bucket || (c.artifacts && w.original && w.thumbnail))
            && (r.Ok? <==> (c.artifacts ==> w.original && w.thumbnail) && w.metadata)
            && t.index == (if r.Ok? then st.index[d.imageId := Written(d, ctx, c, now)] else st.index)
            && (r.Ok? && c.artifacts ==>
                  Holds(t.bucket, KeyOf(d, Original), ctx.original)
                    && Holds(t.bucket, KeyOf(d, Thumbnail), ctx.thumbnail))
  {
    hide Written;
  }

  lemma WrittenSelectively(d: Doc, ctx: Context, o: Options, now: int, w: PipelineWorld)
    requires ctx.original.Some? && ctx.original == w.encoded && ctx.thumbnail.Some? && ctx.thumbnail == w.thumbnail
    requires o.computeExtractor ==>
               ctx.texts.Some? && ctx.texts == w.texts && ctx.perSlice == if d.kind.Video? then w.perSlice else []
    ensures IsRecomputed(d, Written(d.(edited := false), ctx, RecomputeConfig(o), now), ctx.hash, ctx.embeddings, o,
                         now, w)
  {
    hide NonEmpty;
  }

  /**
   Each selected group is what the pipeline made; the other fields, but for hash, edited flag and timestamp, are as they
   were.
   */
  predicate IsRecomputed(d: Doc, d': Doc, hash: string, embeddings: seq<EmbeddingItem>, o: Options, now: int,
                         w: PipelineWorld) {
    && d'.imageId == d.imageId && d'.s3Id == d.s3Id && d'.accountId == d.accountId && d'.kind == d.kind
    && d'.created == d.created && d'.hash == hash && !d'.edited && d'.updated == now
    && (if o.computeExtractor
        then TextAgrees(d') && d'.resultData == w.texts && d'.resultPerSlice == if d.kind.Video? then w.perSlice else []
        else d'.result == d.result && d'.resultData == d.resultData && d'.resultPerSlice == d.resultPerSlice)
    && (if o.updateStorageItems
        then KnowsSize(w.encoded, d.imageSize, d'.imageSize) && KnowsSize(w.thumbnail, d.thumbSize, d'.thumbSize)
        else d'.imageSize == d.imageSize && d'.thumbSize == d.thumbSize)
    && d'.embeddings == if o.computeEmbedding && embeddings != [] then NonEmpty(embeddings) else d.embeddings
  }

  lemma StepKeepsKeyed(md5: Content -> string, st: State, op: Op)
    requires Keyed(st) && Legal(st, op)
    ensures Keyed(Apply(md5, st, op))
  {
    hide Create, Update, Delete, Recompute;
    match op
    case DoCreate(account, kind, raw, imageId, s3Id, now, w) =>
      CreateOutcome(md5, st, account, kind, raw, imageId, s3Id, now, w);
    case DoUpdate(input, now, w) => UpdateOutcome(st, input, now, w);
    case DoDelete(account, id, w) => DeleteOutcome(st, account, id, w);
    case DoRecompute(id, o, now, w) => RecomputeOutcome(md5, st, id, o, now, w);
  }

  lemma StepKeepsTexts(md5: Content -> string, st: State, op: Op)
    requires Keyed(st) && TextsAgree(st) && Legal(st, op)
    ensures TextsAgree(Apply(md5, st, op))
  {
    hide Create, Update, Delete, Recompute, TextAgrees;
    match op
    case DoCreate(account, kind, raw, imageId, s3Id, now, w) =>
      CreateOutcome(md5, st, account, kind, raw, imageId, s3Id, now, w);
    case DoUpdate(input, now, w) => UpdateOutcome(st, input, now, w);
    case DoDelete(account, id, w) => DeleteOutcome(st, account, id, w);
    case DoRecompute(id, o, now, w) => RecomputeOutcome(md5, st, id, o, now, w);
  }

  /** A recompute rewrites its document with a hash that another document of the account has and keeps. */
  ghost predicate RepeatsHash(md5: Content -> string, st: State, op: Op) {
    op.DoRecompute? && op.id in st.index
    && var d := st.index[op.id];
       && Recomputes(md5, st, d, op.options, op.recompute)
       && exists other :: other in st.index && other != op.id && other !in Removed(md5, st, d, op.options, op.recompute)
                       && st.index[other].accountId == d.accountId
                       && st.index[other].hash == md5(st.bucket[KeyOf(d, Original)])
  }

  /** Hashes stay unique under every operation except exactly such recomputes. */
  lemma StepKeepsHashUnique(md5: Content -> string, st: State, op: Op)
    requires Keyed(st) && HashUnique(st) && Legal(st, op)
    ensures HashUnique(Apply(md5, st, op)) <==> !RepeatsHash(md5, st, op)
  {
    hide Create, Update, Delete, Recompute;
    match op
    case DoCreate(account, kind, raw, imageId, s3Id, now, w) =>
      CreateOutcome(md5, st, account, kind, raw, imageId, s3Id, now, w);
      var t := Apply(md5, st, op);
      if t.index != st.index {
        assert !IsKnown(md5, st, account, raw, None);
      }
    case DoUpdate(input, now, w) => UpdateOutcome(st, input, now, w);
    case DoDelete(account, id, w) => DeleteOutcome(st, account, id, w);
    case DoRecompute(id, o, now, w) => RecomputeKeepsHashUnique(md5, st, id, o, now, w);
  }

  /**
   A recompute takes the hash from the stored original, not from the bytes once uploaded: it keeps hashes unique exactly
   when no other document of the account that stays already has that hash.
   */
  lemma RecomputeKeepsHashUnique(md5: Content -> string, st: State, id: Id, o: Options, now: int, w: RecomputeWorld)
    requires Keyed(st) && HashUnique(st) && id in st.index
    ensures HashUnique(Recompute(md5, st, st.index[id], o, now, w).0) <==>
              !RepeatsHash(md5, st, DoRecompute(id, o, now, w))
  {
    hide Recompute, Removed, Duplicate, KeepsOwnMedia;
    RecomputeOutcome(md5, st, id, o, now, w);
    var d, t := st.index[id], Recompute(md5, st, st.index[id], o, now, w).0;
    if RepeatsHash(md5, st, DoRecompute(id, o, now, w)) {
      var other :| other in st.index && other != id && other !in Removed(md5, st, d, o, w)
                && st.index[other].accountId == d.accountId
                && st.index[other].hash == md5(st.bucket[KeyOf(d, Original)]);
      assert other in t.index && SameBytes(t.index[other], t.index[id]);
    }
  }

  /** A delete that got as far as one of the media but not to the document. */
  predicate TearsMedia(st: State, op: Op) {
    op.DoDelete? && op.delete.lookup && op.id in st.index && st.index[op.id].accountId == op.account
    && (op.delete.original || op.delete.thumbnail)
    && !(op.delete.original && op.delete.thumbnail && op.delete.metadata)
  }

  /** A recompute that removes a duplicate and with it media of its own document, and does not store them again. */
  ghost predicate LosesMedia(md5: Content -> string, st: State, op: Op) {
    op.DoRecompute? && op.id in st.index && !KeepsOwnMedia(md5, st, st.index[op.id], op.options, op.recompute)
  }

  /** Media stay complete under every operation except exactly the deletes that stop half way and such recomputes. */
  lemma StepKeepsMedia(md5: Content -> string, st: State, op: Op)
    requires Keyed(st) && MediaPresent(st) && Legal(st, op)
    ensures MediaPresent(Apply(md5, st, op)) <==> !TearsMedia(st, op) && !LosesMedia(md5, st, op)
  {
    hide Create, Update, Recompute, Recomputes, Removed, Duplicate, KeepsOwnMedia;
    match op
    case DoCreate(account, kind, raw, imageId, s3Id, now, w) =>
      CreateOutcome(md5, st, account, kind, raw, imageId, s3Id, now, w);
    case DoUpdate(input, now, w) => UpdateOutcome(st, input, now, w);
    case DoDelete(account, id, w) =>
      DeleteOutcome(st, account, id, w);
      DeleteMedia(md5, st, account, id, w);
    case DoRecompute(id, o, now, w) => RecomputeMedia(md5, st, id, o, now, w);
  }

  lemma RecomputeMedia(md5: Content -> string, st: State, id: Id, o: Options, now: int, w: RecomputeWorld)
    requires Keyed(st) && MediaPresent(st) && id in st.index
    ensures MediaPresent(Recompute(md5, st, st.index[id], o, now, w).0) <==> KeepsOwnMedia(md5, st, st.index[id], o, w)
  {
    hide Recompute, Recomputes, Removed, Duplicate, KeepsOwnMedia;
    RecomputeOutcome(md5, st, id, o, now, w);
    var d, t := st.index[id], Recompute(md5, st, st.index[id], o, now, w).0;
    assert HasMedia(t, t.index[id]) <==> HasMedia(t, d);
    forall other | other in t.index && other != id
      ensures HasMedia(t, t.index[other])
    {
      assert t.index[other] == st.index[other] && st.index[other].s3Id != d.s3Id;
    }
  }

  lemma DeleteMedia(md5: Content -> string, st: State, account: Id, id: Id, w: DeleteWorld)
    requires Keyed(st) && MediaPresent(st)
    ensures MediaPresent(Delete(st, account, id, w).0) <==> !TearsMedia(st, DoDelete(account, id, w))
  {
    var t := Delete(st, account, id, w).0;
    DeleteOutcome(st, account, id, w);
    forall other | other in st.index && other != id
      ensures HasMedia(t, st.index[other])
    {
      assert st.index[other] in st.index.Values;
    }
    if TearsMedia(st, DoDelete(account, id, w)) {
      assert id in t.index && !HasMedia(t, t.index[id]);
    }
  }

  // ---------------------------------------------------------------- main results over runs

  /** Over every run, from an empty library: texts agree at every moment. */
  lemma {:induction false} RunKeepsTexts(md5: Content -> string, ops: seq<Op>, states: seq<State>, at: nat)
    requires IsRun(md5, ops, states) && at < |states| && states[0] == State(map[], map[])
    ensures Keyed(states[at]) && TextsAgree(states[at])
  {
    hide Apply, Legal, Keyed, TextsAgree;
    if at == 0 {
      EmptyLibrary();
    } else {
      RunKeepsTexts(md5, ops, states, at - 1);
      StepKeepsKeyed(md5, states[at - 1], ops[at - 1]);
      StepKeepsTexts(md5, states[at - 1], ops[at - 1]);
    }
  }

  lemma EmptyLibrary()
    ensures var st := State(map[], map[]); Keyed(st) && TextsAgree(st) && HashUnique(st) && MediaPresent(st)
  {
  }

  /** Over every run without a recompute that repeats a hash: no two documents of an account share one. */
  lemma {:induction false} RunKeepsHashUnique(md5: Content -> string, ops: seq<Op>, states: seq<State>, at: nat)
    requires IsRun(md5, ops, states) && at < |states| && states[0] == State(map[], map[])
    requires forall i :: 0 <= i < |ops| ==> !RepeatsHash(md5, states[i], ops[i])
    ensures Keyed(states[at]) && HashUnique(states[at])
  {
    hide Apply, Legal, Keyed, HashUnique, RepeatsHash;
    if at == 0 {
      EmptyLibrary();
    } else {
      RunKeepsHashUnique(md5, ops, states, at - 1);
      StepKeepsKeyed(md5, states[at - 1], ops[at - 1]);
      StepKeepsHashUnique(md5, states[at - 1], ops[at - 1]);
    }
  }

  /**
   Over every run without a delete that stops half way or a recompute that drops its own media: no document lacks a
   medium.
   */
  lemma {:induction false} RunKeepsMedia(md5: Content -> string, ops: seq<Op>, states: seq<State>, at: nat)
    requires IsRun(md5, ops, states) && at < |states| && states[0] == State(map[], map[])
    requires forall i :: 0 <= i < |ops| ==> !TearsMedia(states[i], ops[i]) && !LosesMedia(md5, states[i], ops[i])
    ensures Keyed(states[at]) && MediaPresent(states[at])
  {
    hide Apply, Legal, Keyed, MediaPresent, TearsMedia, LosesMedia;
    if at == 0 {
      EmptyLibrary();
    } else {
      RunKeepsMedia(md5, ops, states, at - 1);
      StepKeepsKeyed(md5, states[at - 1], ops[at - 1]);
      StepKeepsMedia(md5, states[at - 1], ops[at - 1]);
    }
  }

  /** As long as a document exists, everything but a recompute of its own leaves its account and hash alone. */
  lemma {:induction false} HashStays(md5: Content -> string, ops: seq<Op>, states: seq<State>, at: nat, id: Id)
    requires IsRun(md5, ops, states) && at < |states| && Keyed(states[0])
    requires forall i :: 0 <= i < |ops| ==> !(ops[i].DoRecompute? && ops[i].id == id)
    requires forall i :: 0 <= i < |states| ==> id in states[i].index
    ensures Keyed(states[at])
    ensures states[at].index[id].accountId == states[0].index[id].accountId
    ensures states[at].index[id].hash == states[0].index[id].hash
  {
    hide Apply, Legal, Keyed;
    if at > 0 {
      HashStays(md5, ops, states, at - 1, id);
      StepKeepsKeyed(md5, states[at - 1], ops[at - 1]);
      assert id in states[at].index && id in states[at - 1].index;
      StepKeepsHash(md5, states[at - 1], ops[at - 1], id);
    }
  }

  lemma StepKeepsHash(md5: Content -> string, st: State, op: Op, id: Id)
    requires Keyed(st) && Legal(st, op) && id in st.index && id in Apply(md5, st, op).index
    requires !(op.DoRecompute? && op.id == id)
    ensures SameBytes(st.index[id], Apply(md5, st, op).index[id])
  {
    hide Create, Update, Delete, Recompute;
    match op
    case DoCreate(account, kind, raw, imageId, s3Id, now, w) =>
      CreateOutcome(md5, st, account, kind, raw, imageId, s3Id, now, w);
    case DoUpdate(input, now, w) => UpdateOutcome(st, input, now, w);
    case DoDelete(account, gone, w) => DeleteOutcome(st, account, gone, w);
    case DoRecompute(other, o, now, w) => RecomputeOutcome(md5, st, other, o, now, w);
  }

  /**
   Creating the same bytes again, after any operations that let the first document live and do not recompute it, returns
   that document as a duplicate and changes nothing; an error is answered in the same cases only.
   */
  lemma RecreateAfterRun(md5: Content -> string, ops: seq<Op>, states: seq<State>, id: Id, raw: Content,
                         kind: MetadataType, imageId: Id, s3Id: Id, now: int, w: CreateWorld)
    requires IsRun(md5, ops, states) && Keyed(states[0]) && HashUnique(states[|ops|])
    requires forall i :: 0 <= i < |ops| ==> !(ops[i].DoRecompute? && ops[i].id == id)
    requires forall i :: 0 <= i < |states| ==> id in states[i].index
    requires states[0].index[id].hash == md5(raw)
    ensures var last := states[|ops|];
            Create(md5, last, states[0].index[id].accountId, kind, raw, imageId, s3Id, now, w)
            == (last, if w.pipeline.readable && w.pipeline.hashQuery && w.urls then Ok(Created(last.index[id], true))
                else Err)
  {
    hide Create, Apply, Legal, HashUnique;
    HashStays(md5, ops, states, |ops|, id);
    RecreateFindsOriginal(md5, states[|ops|], states[0].index[id].accountId, kind, raw, imageId, s3Id, now, w, id);
  }

  /**
   The duplicate branch deletes the duplicate's document but the media of the document at hand: after it succeeds, the
   surviving document has its media exactly if the recompute was also asked to store them again, and the duplicate's
   media stay behind without a document.
   */
  lemma DuplicateBranchDropsOwnMedia(md5: Content -> string, st: State, id: Id, o: Options, now: int, w: RecomputeWorld)
    requires Keyed(st) && MediaPresent(st) && id in st.index
    requires Duplicate(md5, st, st.index[id], o, w).Some? && Recompute(md5, st, st.index[id], o, now, w).1.Ok?
    ensures var t, dup := Recompute(md5, st, st.index[id], o, now, w).0, Duplicate(md5, st, st.index[id], o, w).value;
            && id in t.index && (HasMedia(t, t.index[id]) <==> o.updateStorageItems)
            && dup.imageId !in t.index && HasMedia(t, dup)
  {
    hide Recompute;
    RecomputeOutcome(md5, st, id, o, now, w);
    var d, t := st.index[id], Recompute(md5, st, st.index[id], o, now, w).0;
    assert HasMedia(t, t.index[id]) <==> HasMedia(t, d);
  }
}
