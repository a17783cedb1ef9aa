/**
 What creating, updating, deleting and recomputing a meme mean for the metadata index and the media bucket.
 Everything outside the two stores (decoders, models, the network) is an oracle: a value that says how each call of one
 operation turns out. A store call that fails has no effect.
 */
module LibraryState {
  import opened GoText
  import opened Entities

  type Content = Text

  datatype Slot = Original | Thumbnail

  /** The object name of a medium: its document's s3 id and a file name that tells type and slot. */
  datatype MediaKey = MediaKey(s3Id: Id, kind: MetadataType, slot: Slot)

  datatype State = State(index: map<Id, Doc>, bucket: map<MediaKey, Content>)

  function KeyOf(d: Doc, slot: Slot): MediaKey {
    MediaKey(d.s3Id, d.kind, slot)
  }

  /** Encoded media with their dimensions. */
  datatype Rendition = Rendition(content: Content, size: Sizes)

  // ---------------------------------------------------------------- the extraction pipeline

  /** How the calls of one pipeline run turn out; None is an error. near names a document found similar. */
  datatype PipelineWorld = PipelineWorld(
    readable: bool,
    hashQuery: bool,
    encoded: Option<Rendition>,
    slices: Option<nat>,
    embeddings: Option<seq<EmbeddingItem>>,
    near: Option<Option<Id>>,
    texts: Option<Texts>,
    perSlice: seq<SliceTexts>,
    thumbnail: Option<Rendition>)

  datatype Context = Context(
    hash: string,
    duplicate: Option<Doc>,
    embeddings: seq<EmbeddingItem>,
    sliceCount: nat,
    texts: Option<Texts>,
    perSlice: seq<SliceTexts>,
    original: Option<Rendition>,
    thumbnail: Option<Rendition>)

  datatype PipelineStep =
    | CalcHash
    | CheckDuplicateByHash
    | EncodeOriginal
    | SliceVideo
    | CalcEmbeddings
    | CheckDuplicateByEmbedding
    | LlmExtract
    | CreateThumbnail

  datatype Options = Options(
    computeExtractor: bool,
    computeEmbedding: bool,
    updateStorageItems: bool,
    checkDuplicates: bool,
    includeManualEdited: bool)

  /** Which steps the caller lets run: a create stops at the first duplicate, a recompute follows its options. */
  datatype Policy = Creating | Recomputing(options: Options)

  predicate Allows(policy: Policy, step: PipelineStep, ctx: Context) {
    match policy
    case Creating => ctx.duplicate.None?
    case Recomputing(o) =>
      match step
      case SliceVideo => o.computeEmbedding || o.computeExtractor
      case CalcEmbeddings => o.computeEmbedding
      case LlmExtract => o.computeExtractor
      case CheckDuplicateByHash => o.checkDuplicates
      case CheckDuplicateByEmbedding => o.checkDuplicates
      case _ => true
  }

  datatype Input = Input(account: Id, kind: MetadataType, raw: Content, seedId: Option<Id>,
                         seedEmbeddings: seq<EmbeddingItem>)

  const STEPS: seq<PipelineStep> := [CalcHash, CheckDuplicateByHash, EncodeOriginal, SliceVideo, CalcEmbeddings,
                                     CheckDuplicateByEmbedding, LlmExtract, CreateThumbnail]

  predicate ForKind(step: PipelineStep, kind: MetadataType) {
    step.SliceVideo? ==> kind.Video?
  }

  /** The account's documents with this hash, other than the one being recomputed. */
  function SameHash(st: State, account: Id, hash: string, exclude: Option<Id>): set<Doc> {
    set id | id in st.index && st.index[id].accountId == account && st.index[id].hash == hash && exclude != Some(id)
      :: st.index[id]
  }

  lemma HighestIdExists(docs: set<Doc>)
    requires docs != {}
    ensures exists d :: d in docs && forall e :: e in docs ==> e.imageId <= d.imageId
  {
    var d :| d in docs;
    if docs != {d} {
      var rest := docs - {d};
      HighestIdExists(rest);
      var m :| m in rest && forall e :: e in rest ==> e.imageId <= m.imageId;
      assert forall e :: e in docs ==> e == d || e in rest;
      if m.imageId < d.imageId {
        assert forall e :: e in docs ==> e.imageId <= d.imageId;
      } else {
        assert forall e :: e in docs ==> e.imageId <= m.imageId;
      }
    }
  }

  /** The first hit of a query sorted by descending image id. */
  ghost function HighestId(docs: set<Doc>): (r: Option<Doc>)
    ensures r.None? <==> docs == {}
    ensures r.Some? ==> r.value in docs && forall e :: e in docs ==> e.imageId <= r.value.imageId
  {
    if docs == {} then None
    else
      HighestIdExists(docs);
      var d :| d in docs && forall e :: e in docs ==> e.imageId <= d.imageId;
      Some(d)
  }

  /** The document a similarity check ended on, if it is there for this account. */
  function Similar(st: State, input: Input, near: Option<Id>): Option<Doc> {
    if near.Some? && near != input.seedId && near.value in st.index && st.index[near.value].accountId == input.account
    then Some(st.index[near.value]) else None
  }

  ghost function DoStep(md5: Content -> string, st: State, input: Input, w: PipelineWorld, step: PipelineStep,
                        ctx: Context): Result<Context> {
    match step
    case CalcHash =>
      if ctx.hash != "" then Ok(ctx)
      else if w.readable then Ok(ctx.(hash := md5(input.raw)))
      else Err
    case CheckDuplicateByHash =>
      if !w.hashQuery then Err
      else
        var found := HighestId(SameHash(st, input.account, ctx.hash, input.seedId));
        Ok(if found.Some? then ctx.(duplicate := found) else ctx)
    case EncodeOriginal =>
      if w.encoded.None? then Err else Ok(ctx.(original := w.encoded))
    case SliceVideo =>
      if ctx.original.None? then Ok(ctx)
      else if w.slices.None? then Err
      else Ok(ctx.(sliceCount := w.slices.value))
    case CalcEmbeddings =>
      if input.kind.Video? && ctx.sliceCount == 0 then Ok(ctx)
      else if w.embeddings.None? then Err
      else Ok(ctx.(embeddings := w.embeddings.value))
    case CheckDuplicateByEmbedding =>
      if ctx.embeddings == [] then (if input.kind.Image? then Err else Ok(ctx))
      else if w.near.None? then Err
      else
        var found := Similar(st, input, w.near.value);
        Ok(if w.near.value.Some? && (found.Some? || input.kind.Video?) then ctx.(duplicate := found) else ctx)
    case LlmExtract =>
      if input.kind.Video? && ctx.sliceCount == 0 then Err
      else if w.texts.None? then Err
      else Ok(ctx.(texts := w.texts, perSlice := if input.kind.Video? then w.perSlice else []))
    case CreateThumbnail =>
      if ctx.original.None? then Ok(ctx)
      else if w.thumbnail.None? then Err
      else Ok(ctx.(thumbnail := w.thumbnail))
  }

  /** The pipeline from some step on: steps of another media type and disallowed steps are passed over. */
  ghost function RunSteps(md5: Content -> string, st: State, input: Input, policy: Policy, w: PipelineWorld,
                    steps: seq<PipelineStep>, ctx: Context): Result<Context> {
    if steps == [] then Ok(ctx)
    else if !ForKind(steps[0], input.kind) || !Allows(policy, steps[0], ctx) then
      RunSteps(md5, st, input, policy, w, steps[1..], ctx)
    else
      match DoStep(md5, st, input, w, steps[0], ctx)
      case Err => Err
      case Ok(next) => RunSteps(md5, st, input, policy, w, steps[1..], next)
  }

  function StartContext(input: Input): Context {
    Context("", None, input.seedEmbeddings, 0, None, [], None, None)
  }

  ghost function Extract(md5: Content -> string, st: State, input: Input, policy: Policy,
                         w: PipelineWorld): Result<Context> {
    RunSteps(md5, st, input, policy, w, STEPS, StartContext(input))
  }

  // ---------------------------------------------------------------- saving a pipeline result

  datatype SaveConfig = SaveConfig(hash: bool, extractor: bool, artifacts: bool, embedding: bool)

  datatype SaveWorld = SaveWorld(original: bool, thumbnail: bool, metadata: bool)

  /** The flat text that full-text search looks at. */
  function FlatText(t: Texts): string {
    t.onScreenText + " " + t.audioTranscript + " " + t.audioTrack
  }

  function UsableSize(r: Option<Rendition>, previous: Option<Sizes>): Option<Sizes> {
    if r.Some? && r.value.size.width > 0 then Some(r.value.size) else previous
  }

  function NonEmpty(items: seq<EmbeddingItem>): seq<EmbeddingItem> {
    if items == [] then []
    else (if items[0].data != [] then [items[0]] else []) + NonEmpty(items[1..])
  }

  /** The document with the selected parts of the pipeline result written into it. */
  function Written(d: Doc, ctx: Context, c: SaveConfig, now: int): Doc {
    var d1 := if c.hash then d.(hash := ctx.hash) else d;
    var d2 := if c.extractor && ctx.texts.Some?
              then d1.(result := FlatText(ctx.texts.value), resultData := ctx.texts, resultPerSlice := ctx.perSlice)
              else d1;
    var d3 := if c.artifacts
              then d2.(imageSize := UsableSize(ctx.original, d2.imageSize),
                       thumbSize := UsableSize(ctx.thumbnail, d2.thumbSize)) else d2;
    var d4 := if c.embedding && ctx.embeddings != [] then d3.(embeddings := NonEmpty(ctx.embeddings)) else d3;
    d4.(updated := now)
  }

  function PutMedium(b: map<MediaKey, Content>, key: MediaKey, r: Option<Rendition>, ok: bool): map<MediaKey, Content> {
    if r.Some? && ok then b[key := r.value.content] else b
  }

  /** Artifacts are written in the order in which they were made, up to the first failure; the document comes last. */
  function Save(st: State, d: Doc, ctx: Context, c: SaveConfig, w: SaveWorld, now: int): (State, Result<Doc>) {
    if c.artifacts && ctx.original.Some? && !w.original then (st, Err)
    else
      var b1 := if c.artifacts then PutMedium(st.bucket, KeyOf(d, Original), ctx.original, true) else st.bucket;
      if c.artifacts && ctx.thumbnail.Some? && !w.thumbnail then (st.(bucket := b1), Err)
      else
        var b2 := if c.artifacts then PutMedium(b1, KeyOf(d, Thumbnail), ctx.thumbnail, true) else b1;
        var written := Written(d, ctx, c, now);
        if !w.metadata then (st.(bucket := b2), Err)
        else (State(st.index[d.imageId := written], b2), Ok(written))
  }

  // ---------------------------------------------------------------- the operations

  datatype CreateWorld = CreateWorld(pipeline: PipelineWorld, save: SaveWorld, urls: bool)

  datatype Created = Created(doc: Doc, duplicated: bool)

  function BlankDoc(account: Id, kind: MetadataType, imageId: Id, s3Id: Id, now: int): Doc {
    Doc(imageId, s3Id, account, "", "", None, None, now, now, [], kind, None, [], false)
  }

  const SAVE_ALL := SaveConfig(true, true, true, true)

  ghost function Create(md5: Content -> string, st: State, account: Id, kind: MetadataType, raw: Content,
                  imageId: Id, s3Id: Id, now: int, w: CreateWorld): (State, Result<Created>) {
    match Extract(md5, st, Input(account, kind, raw, None, []), Creating, w.pipeline)
    case Err => (st, Err)
    case Ok(ctx) =>
      if ctx.duplicate.Some? then (st, if w.urls then Ok(Created(ctx.duplicate.value, true)) else Err)
      else
        var (t, saved) := Save(st, BlankDoc(account, kind, imageId, s3Id, now), ctx, SAVE_ALL, w.save, now);
        match saved
        case Err => (t, Err)
        case Ok(d) => (t, if w.urls then Ok(Created(d, false)) else Err)
  }

  /** New texts and media; None leaves a part alone. encode results are None on failure. */
  datatype UpdateInput = UpdateInput(
    id: Id,
    account: Id,
    onScreenText: Option<string>,
    audioTranscript: Option<string>,
    caption: Option<string>,
    audioTrack: Option<string>,
    original: bool,
    thumbnail: bool)

  datatype UpdateWorld = UpdateWorld(
    lookup: bool,
    encodedOriginal: Option<Rendition>,
    encodedThumbnail: Option<Rendition>,
    save: SaveWorld,
    urls: bool)

  function Find(st: State, account: Id, id: Id): Option<Doc> {
    if id in st.index && st.index[id].accountId == account then Some(st.index[id]) else None
  }

  function Or<T>(o: Option<T>, default: T): T {
    if o.Some? then o.value else default
  }

  /** The document with new texts; the flat text follows unless only the caption changed. */
  function Retexted(d: Doc, u: UpdateInput): Doc {
    var t := Or(d.resultData, Texts("", "", "", ""));
    var t' := Texts(Or(u.onScreenText, t.onScreenText), Or(u.audioTranscript, t.audioTranscript),
                    Or(u.audioTrack, t.audioTrack), Or(u.caption, t.caption));
    var llmChanged := u.onScreenText.Some? || u.audioTranscript.Some? || u.audioTrack.Some?;
    d.(resultData := Some(t'), result := if llmChanged then FlatText(t') else d.result)
  }

  function Update(st: State, u: UpdateInput, now: int, w: UpdateWorld): (State, Result<Doc>) {
    var found := Find(st, u.account, u.id);
    if !w.lookup || found.None? then (st, Err)
    else
      var d := found.value;
      if u.original && (w.encodedOriginal.None? || !w.save.original) then (st, Err)
      else
        var b1 := if u.original then PutMedium(st.bucket, KeyOf(d, Original), w.encodedOriginal, true) else st.bucket;
        if u.thumbnail && (w.encodedThumbnail.None? || !w.save.thumbnail) then (st.(bucket := b1), Err)
        else
          var b2 := if u.thumbnail then PutMedium(b1, KeyOf(d, Thumbnail), w.encodedThumbnail, true) else b1;
          if !w.save.metadata then (st.(bucket := b2), Err)
          else
            var d' := Retexted(d, u).(
              imageSize := if u.original then Some(w.encodedOriginal.value.size) else d.imageSize,
              thumbSize := if u.thumbnail then Some(w.encodedThumbnail.value.size) else d.thumbSize,
              edited := true, updated := now);
            (State(st.index[d.imageId := d'], b2), if w.urls then Ok(d') else Err)
  }

  datatype DeleteWorld = DeleteWorld(lookup: bool, original: bool, thumbnail: bool, metadata: bool)

  function DropMedium(b: map<MediaKey, Content>, key: MediaKey, ok: bool): map<MediaKey, Content> {
    if ok then b - {key} else b
  }

  /** Both media are tried before either error counts; the document goes last. */
  function Delete(st: State, account: Id, id: Id, w: DeleteWorld): (State, Result<()>) {
    var found := Find(st, account, id);
    if !w.lookup || found.None? then (st, Err)
    else
      var b := DropMedium(DropMedium(st.bucket, KeyOf(found.value, Original), w.original),
                          KeyOf(found.value, Thumbnail), w.thumbnail);
      if !w.original || !w.thumbnail || !w.metadata then (st.(bucket := b), Err)
      else (State(st.index - {id}, b), Ok(()))
  }

  datatype RecomputeWorld = RecomputeWorld(read: bool, wrap: bool, pipeline: PipelineWorld, deletes: DeleteWorld,
                                           save: SaveWorld)

  /** The duplicate branch: the duplicate's document goes, and with it the media of the document at hand. */
  function DropDuplicate(st: State, d: Doc, dup: Doc, w: DeleteWorld): State {
    State(if w.metadata && Find(st, d.accountId, dup.imageId).Some? then st.index - {dup.imageId} else st.index,
          DropMedium(DropMedium(st.bucket, KeyOf(d, Original), w.original), KeyOf(d, Thumbnail), w.thumbnail))
  }

  function RecomputeConfig(o: Options): SaveConfig {
    SaveConfig(true, o.computeExtractor, o.updateStorageItems, o.computeEmbedding)
  }

  ghost function Recompute(md5: Content -> string, st: State, d: Doc, o: Options, now: int,
                           w: RecomputeWorld): (State, Result<()>) {
    if !o.includeManualEdited && d.edited then (st, Ok(()))
    else if !w.read || KeyOf(d, Original) !in st.bucket || !w.wrap then (st, Err)
    else
      var input := Input(d.accountId, d.kind, st.bucket[KeyOf(d, Original)], Some(d.imageId), d.embeddings);
      match Extract(md5, st, input, Recomputing(o), w.pipeline)
      case Err => (st, Err)
      case Ok(ctx) =>
        var drops := o.checkDuplicates && ctx.duplicate.Some?;
        var st1 := if drops then DropDuplicate(st, d, ctx.duplicate.value, w.deletes) else st;
        if drops && !(w.deletes.metadata && w.deletes.original && w.deletes.thumbnail) then (st1, Err)
        else
          var (t, saved) := Save(st1, d.(edited := false), ctx, RecomputeConfig(o), w.save, now);
          (t, if saved.Ok? then Ok(()) else Err)
  }
}
