/**
 What the extraction pipeline finds out, said without its steps: which bytes are a duplicate, of which document, and
 what a pipeline that goes through hands on. The step loop is proved to agree.
 */
module PipelineMeaning {
  import opened GoText
  import opened Entities
  import opened LibraryState

  // ---------------------------------------------------------------- duplicates

  /** The account has another document with the hash of these bytes. */
  ghost predicate IsKnown(md5: Content -> string, st: State, account: Id, raw: Content, except: Option<Id>) {
    exists id :: id in st.index && except != Some(id) && st.index[id].accountId == account
      && st.index[id].hash == md5(raw)
  }

  /** This is such a document, the one with the highest id. */
  ghost predicate IsTwin(md5: Content -> string, st: State, account: Id, raw: Content, except: Option<Id>, d: Doc) {
    && (exists id :: id in st.index && st.index[id] == d && except != Some(id))
    && d.accountId == account && d.hash == md5(raw)
    && forall id ::
         id in st.index && except != Some(id) && st.index[id].accountId == account && st.index[id].hash == md5(raw) ==>
           st.index[id].imageId <= d.imageId
  }

  /** The similarity check ends on another document, and the account has it. */
  ghost predicate FindsSimilar(st: State, account: Id, except: Option<Id>, w: PipelineWorld) {
    && w.near.Some? && w.near.value.Some?
    && var id := w.near.value.value;
       id in st.index && except != Some(id) && st.index[id].accountId == account
  }

  lemma TwinIsHighest(md5: Content -> string, st: State, account: Id, raw: Content, except: Option<Id>)
    ensures var found := HighestId(SameHash(st, account, md5(raw), except));
            && (found.Some? <==> IsKnown(md5, st, account, raw, except))
            && (found.Some? ==> IsTwin(md5, st, account, raw, except, found.value))
  {
    var same := SameHash(st, account, md5(raw), except);
    forall id | id in st.index && except != Some(id) && st.index[id].accountId == account
      && st.index[id].hash == md5(raw)
      ensures st.index[id] in same
    {
    }
  }

  lemma SimilarIsFound(st: State, input: Input, w: PipelineWorld)
    requires w.near.Some?
    ensures var found := Similar(st, input, w.near.value);
            && (found.Some? <==> FindsSimilar(st, input.account, input.seedId, w))
            && (found.Some? ==> found.value == st.index[w.near.value.value])
  {
  }

  // ---------------------------------------------------------------- one step at a time

  /** The pipeline from step k on is step k, if it is not passed over, and the pipeline from step k + 1 on. */
  lemma OneStep(md5: Content -> string, st: State, input: Input, policy: Policy, w: PipelineWorld, k: nat, ctx: Context)
    requires k < |STEPS|
    ensures RunSteps(md5, st, input, policy, w, STEPS[k..], ctx) ==
              if !ForKind(STEPS[k], input.kind) || !Allows(policy, STEPS[k], ctx)
              then RunSteps(md5, st, input, policy, w, STEPS[k + 1..], ctx)
              else match DoStep(md5, st, input, w, STEPS[k], ctx)
                   case Err => Err
                   case Ok(next) => RunSteps(md5, st, input, policy, w, STEPS[k + 1..], next)
  {
    hide DoStep, ForKind, Allows;
    assert STEPS[k..][0] == STEPS[k] && STEPS[k..][1..] == STEPS[k + 1..];
  }

  lemma NoStep(md5: Content -> string, st: State, input: Input, policy: Policy, w: PipelineWorld, ctx: Context)
    ensures RunSteps(md5, st, input, policy, w, STEPS[|STEPS|..], ctx) == Ok(ctx)
  {
  }

  // ---------------------------------------------------------------- creating

  /** The bytes could be embedded, and what they are embedded as is close to a document of the account. */
  ghost predicate Resembles(st: State, account: Id, kind: MetadataType, w: PipelineWorld) {
    && w.encoded.Some? && (kind.Video? ==> w.slices.Some? && w.slices.value > 0)
    && w.embeddings.Some? && w.embeddings.value != [] && FindsSimilar(st, account, None, w)
  }

  /** The pipeline of a create ends with a duplicate. */
  ghost predicate IsDuplicated(md5: Content -> string, st: State, account: Id, kind: MetadataType, raw: Content,
                               w: PipelineWorld) {
    w.readable && w.hashQuery && (IsKnown(md5, st, account, raw, None) || Resembles(st, account, kind, w))
  }

  /** The document a create finds: the one with the same hash, or else the similar one. */
  ghost predicate IsDuplicate(md5: Content -> string, st: State, account: Id, raw: Content, w: PipelineWorld, d: Doc) {
    if IsKnown(md5, st, account, raw, None) then IsTwin(md5, st, account, raw, None, d)
    else FindsSimilar(st, account, None, w) && d == st.index[w.near.value.value]
  }

  /** The pipeline of a create ends with everything a new document needs. Only an image must have an embedding. */
  ghost predicate IsNew(md5: Content -> string, st: State, account: Id, kind: MetadataType, raw: Content,
                        w: PipelineWorld) {
    && w.readable && w.hashQuery && !IsKnown(md5, st, account, raw, None)
    && w.encoded.Some? && (kind.Video? ==> w.slices.Some? && w.slices.value > 0) && w.embeddings.Some?
    && (if w.embeddings.value == [] then kind.Video? else w.near.Some? && !FindsSimilar(st, account, None, w))
    && w.texts.Some? && w.thumbnail.Some?
  }

  /** After a duplicate a create passes over every step. */
  lemma {:induction false} DuplicateEndsCreate(md5: Content -> string, st: State, input: Input, w: PipelineWorld,
                                               steps: seq<PipelineStep>, ctx: Context)
    requires ctx.duplicate.Some?
    ensures RunSteps(md5, st, input, Creating, w, steps, ctx) == Ok(ctx)
  {
    if steps != [] {
      DuplicateEndsCreate(md5, st, input, w, steps[1..], ctx);
    }
  }

  function SlicesOf(kind: MetadataType, w: PipelineWorld): nat {
    if kind.Video? && w.slices.Some? then w.slices.value else 0
  }

  /** The pipeline of a create whose bytes have been hashed and are not known. */
  lemma UnknownBytes(md5: Content -> string, st: State, input: Input, w: PipelineWorld, ctx: Context)
    requires ctx == StartContext(input).(hash := md5(input.raw)) && input.seedId.None? && input.seedEmbeddings == []
    ensures var end := RunSteps(md5, st, input, Creating, w, STEPS[2..], ctx);
            if Resembles(st, input.account, input.kind, w)
            then end.Ok? && end.value.duplicate == Some(st.index[w.near.value.value])
            else EndsNew(st, input, w, ctx, end)
  {
    hide RunSteps, Similar;
    OneStep(md5, st, input, Creating, w, 2, ctx);
    if w.encoded.Some? {
      var c3 := ctx.(original := w.encoded);
      OneStep(md5, st, input, Creating, w, 3, c3);
      if input.kind.Video? ==> w.slices.Some? {
        var c4 := c3.(sliceCount := SlicesOf(input.kind, w));
        OneStep(md5, st, input, Creating, w, 4, c4);
        if input.kind.Video? && c4.sliceCount == 0 {
          CheckedAndTold(md5, st, input, w, c4);
        } else if w.embeddings.Some? {
          CheckedAndTold(md5, st, input, w, c4.(embeddings := w.embeddings.value));
        }
      }
    }
  }

  /** How a pipeline on bytes that are neither known nor similar to a document ends. */
  ghost predicate EndsNew(st: State, input: Input, w: PipelineWorld, ctx: Context, end: Result<Context>) {
    if && w.encoded.Some? && (input.kind.Video? ==> w.slices.Some? && w.slices.value > 0) && w.embeddings.Some?
       && (if w.embeddings.value == [] then input.kind.Video?
           else w.near.Some? && !FindsSimilar(st, input.account, None, w))
       && w.texts.Some? && w.thumbnail.Some?
    then end == Ok(Context(ctx.hash, None, w.embeddings.value, SlicesOf(input.kind, w), w.texts,
                           if input.kind.Video? then w.perSlice else [], w.encoded, w.thumbnail))
    else end == Err
  }

  /** The rest of a create: the similarity check, the model, the thumbnail. */
  lemma CheckedAndTold(md5: Content -> string, st: State, input: Input, w: PipelineWorld, ctx: Context)
    requires input.seedId.None? && ctx.duplicate.None? && ctx.original.Some? && ctx.texts.None? && ctx.perSlice == []
    ensures var end := RunSteps(md5, st, input, Creating, w, STEPS[5..], ctx);
            if ctx.embeddings != [] && FindsSimilar(st, input.account, None, w)
            then end == Ok(ctx.(duplicate := Some(st.index[w.near.value.value])))
            else if && (if ctx.embeddings == [] then input.kind.Video? else w.near.Some?)
                    && (input.kind.Video? ==> ctx.sliceCount > 0) && w.texts.Some? && w.thumbnail.Some?
            then end == Ok(ctx.(texts := w.texts, perSlice := if input.kind.Video? then w.perSlice else [],
                                thumbnail := w.thumbnail))
            else end == Err
  {
    hide RunSteps, Similar;
    OneStep(md5, st, input, Creating, w, 5, ctx);
    if w.near.Some? {
      SimilarIsFound(st, input, w);
    }
    if ctx.embeddings != [] && FindsSimilar(st, input.account, None, w) {
      DuplicateEndsCreate(md5, st, input, w, STEPS[6..], ctx.(duplicate := Some(st.index[w.near.value.value])));
    } else {
      var told := ctx.(texts := w.texts, perSlice := if input.kind.Video? then w.perSlice else []);
      OneStep(md5, st, input, Creating, w, 6, ctx);
      OneStep(md5, st, input, Creating, w, 7, told);
      NoStep(md5, st, input, Creating, w, told.(thumbnail := w.thumbnail));
    }
  }

  /**
   The pipeline of a create ends with a duplicate exactly when the bytes are known or resemble a document of the
   account, and otherwise, if every call goes well, with all that a new document needs.
   */
  lemma CreatePipeline(md5: Content -> string, st: State, input: Input, w: PipelineWorld)
    requires input.seedId.None? && input.seedEmbeddings == []
    ensures var end := Extract(md5, st, input, Creating, w);
            if IsDuplicated(md5, st, input.account, input.kind, input.raw, w)
            then end.Ok? && end.value.duplicate.Some?
              && IsDuplicate(md5, st, input.account, input.raw, w, end.value.duplicate.value)
            else if IsNew(md5, st, input.account, input.kind, input.raw, w)
            then end == Ok(Context(md5(input.raw), None, w.embeddings.value, SlicesOf(input.kind, w), w.texts,
                                   if input.kind.Video? then w.perSlice else [], w.encoded, w.thumbnail))
            else end == Err
  {
    hide RunSteps, SameHash, IsKnown, IsTwin;
    assert STEPS[0..] == STEPS;
    var start := StartContext(input);
    var hashed := start.(hash := md5(input.raw));
    OneStep(md5, st, input, Creating, w, 0, start);
    OneStep(md5, st, input, Creating, w, 1, hashed);
    TwinIsHighest(md5, st, input.account, input.raw, None);
    var found := HighestId(SameHash(st, input.account, md5(input.raw), None));
    if found.Some? {
      DuplicateEndsCreate(md5, st, input, w, STEPS[2..], hashed.(duplicate := found));
    } else {
      UnknownBytes(md5, st, input, w, hashed);
    }
  }

  // ---------------------------------------------------------------- recomputing

  /** The slices a recompute works on. */
  function SlicesAgain(kind: MetadataType, o: Options, w: PipelineWorld): nat {
    if o.computeEmbedding || o.computeExtractor then SlicesOf(kind, w) else 0
  }

  predicate EmbedsAgain(kind: MetadataType, o: Options, w: PipelineWorld) {
    o.computeEmbedding && (kind.Image? || SlicesAgain(kind, o, w) > 0)
  }

  /**
   The embeddings a recompute ends with: new ones if it is asked for them and has any slices, or else the old ones.
   */
  function EmbeddingsAgain(input: Input, o: Options, w: PipelineWorld): seq<EmbeddingItem> {
    if EmbedsAgain(input.kind, o, w) && w.embeddings.Some? then w.embeddings.value else input.seedEmbeddings
  }

  /** Every call that the options ask for goes well. Only an image must have an embedding to be checked. */
  predicate GoesThrough(input: Input, o: Options, w: PipelineWorld) {
    && w.readable && w.encoded.Some? && w.thumbnail.Some?
    && (input.kind.Video? && (o.computeEmbedding || o.computeExtractor) ==> w.slices.Some?)
    && (EmbedsAgain(input.kind, o, w) ==> w.embeddings.Some?)
    && (o.computeExtractor ==> w.texts.Some? && (input.kind.Video? ==> SlicesAgain(input.kind, o, w) > 0))
    && (o.checkDuplicates ==>
          w.hashQuery && if EmbeddingsAgain(input, o, w) == [] then input.kind.Video? else w.near.Some?)
  }

  /**
   What a recompute that checks for duplicates ends with: a similar document; or else one with the same hash, unless it
   is a video for which the check names a document that is not there.
   */
  ghost predicate IsDuplicateAgain(md5: Content -> string, st: State, input: Input, o: Options, w: PipelineWorld,
                                   dup: Option<Doc>) {
    var compares := EmbeddingsAgain(input, o, w) != [];
    if compares && FindsSimilar(st, input.account, input.seedId, w) then dup == Some(st.index[w.near.value.value])
    else if compares && input.kind.Video? && w.near.Some? && w.near.value.Some? then dup == None
    else if IsKnown(md5, st, input.account, input.raw, input.seedId)
    then dup.Some? && IsTwin(md5, st, input.account, input.raw, input.seedId, dup.value)
    else dup == None
  }

  /** What a recompute that goes through hands on. */
  ghost predicate EndsAgain(md5: Content -> string, st: State, input: Input, o: Options, w: PipelineWorld,
                            ctx: Context) {
    && ctx == Context(md5(input.raw), ctx.duplicate, EmbeddingsAgain(input, o, w), SlicesAgain(input.kind, o, w),
                      if o.computeExtractor then w.texts else None,
                      if o.computeExtractor && input.kind.Video? then w.perSlice else [], w.encoded, w.thumbnail)
    && if o.checkDuplicates then IsDuplicateAgain(md5, st, input, o, w, ctx.duplicate) else ctx.duplicate.None?
  }

  /**
   The pipeline of a recompute goes through exactly when every call that the options ask for goes well, and then it
   hands on what these made, and the duplicate if there is one.
   */
  lemma RecomputePipeline(md5: Content -> string, st: State, input: Input, o: Options, w: PipelineWorld)
    ensures var end := Extract(md5, st, input, Recomputing(o), w);
            if GoesThrough(input, o, w) then end.Ok? && EndsAgain(md5, st, input, o, w, end.value) else end == Err
  {
    hide RunSteps, SameHash, IsKnown, IsTwin, Similar;
    assert STEPS[0..] == STEPS;
    var policy := Recomputing(o);
    var start := StartContext(input);
    var hashed := start.(hash := md5(input.raw));
    OneStep(md5, st, input, policy, w, 0, start);
    if w.readable {
      OneStep(md5, st, input, policy, w, 1, hashed);
      TwinIsHighest(md5, st, input.account, input.raw, input.seedId);
      var found := HighestId(SameHash(st, input.account, md5(input.raw), input.seedId));
      var checked := if o.checkDuplicates then hashed.(duplicate := found) else hashed;
      if o.checkDuplicates ==> w.hashQuery {
        EncodedAndEmbedded(md5, st, input, o, w, checked);
      }
    }
  }

  /** From the encoding to the embeddings. */
  lemma EncodedAndEmbedded(md5: Content -> string, st: State, input: Input, o: Options, w: PipelineWorld, ctx: Context)
    requires ctx == StartContext(input).(hash := ctx.hash, duplicate := ctx.duplicate)
    ensures var end := RunSteps(md5, st, input, Recomputing(o), w, STEPS[2..], ctx);
            if && w.encoded.Some?
              && (input.kind.Video? && (o.computeEmbedding || o.computeExtractor) ==> w.slices.Some?)
               && (EmbedsAgain(input.kind, o, w) ==> w.embeddings.Some?)
            then EndsRest(st, input, o, w, ctx.(original := w.encoded, sliceCount := SlicesAgain(input.kind, o, w),
                                                embeddings := EmbeddingsAgain(input, o, w)), end)
            else end == Err
  {
    hide RunSteps, EndsRest, FindsSimilar;
    var policy := Recomputing(o);
    OneStep(md5, st, input, policy, w, 2, ctx);
    if w.encoded.Some? {
      var c3 := ctx.(original := w.encoded);
      OneStep(md5, st, input, policy, w, 3, c3);
      if input.kind.Video? && (o.computeEmbedding || o.computeExtractor) ==> w.slices.Some? {
        var c4 := c3.(sliceCount := SlicesAgain(input.kind, o, w));
        OneStep(md5, st, input, policy, w, 4, c4);
        if EmbedsAgain(input.kind, o, w) ==> w.embeddings.Some? {
          CheckedAndToldAgain(md5, st, input, o, w, c4.(embeddings := EmbeddingsAgain(input, o, w)));
        }
      }
    }
  }

  /** How the rest of a recompute ends. */
  ghost predicate EndsRest(st: State, input: Input, o: Options, w: PipelineWorld, ctx: Context, end: Result<Context>) {
    var compares := o.checkDuplicates && ctx.embeddings != [];
    if && w.thumbnail.Some?
       && (o.checkDuplicates ==> if ctx.embeddings == [] then input.kind.Video? else w.near.Some?)
       && (o.computeExtractor ==> w.texts.Some? && (input.kind.Video? ==> ctx.sliceCount > 0))
    then end == Ok(ctx.(
      duplicate := if compares && FindsSimilar(st, input.account, input.seedId, w)
        then Some(st.index[w.near.value.value])
                   else if compares && input.kind.Video? && w.near.Some? && w.near.value.Some? then None
                   else ctx.duplicate,
      texts := if o.computeExtractor then w.texts else None,
      perSlice := if o.computeExtractor && input.kind.Video? then w.perSlice else [],
      thumbnail := w.thumbnail))
    else end == Err
  }

  lemma CheckedAndToldAgain(md5: Content -> string, st: State, input: Input, o: Options, w: PipelineWorld, ctx: Context)
    requires ctx.original.Some? && ctx.texts.None? && ctx.perSlice == []
    ensures EndsRest(st, input, o, w, ctx, RunSteps(md5, st, input, Recomputing(o), w, STEPS[5..], ctx))
  {
    hide RunSteps, Similar;
    var policy := Recomputing(o);
    OneStep(md5, st, input, policy, w, 5, ctx);
    if w.near.Some? {
      SimilarIsFound(st, input, w);
    }
    var checked := ctx;
    if o.checkDuplicates && ctx.embeddings != [] && w.near.Some? && w.near.value.Some? {
      var found := Similar(st, input, w.near.value);
      checked := if found.Some? || input.kind.Video? then ctx.(duplicate := found) else ctx;
    }
    var told := if o.computeExtractor
                then checked.(texts := w.texts, perSlice := if input.kind.Video? then w.perSlice else []) else checked;
    OneStep(md5, st, input, policy, w, 6, checked);
    OneStep(md5, st, input, policy, w, 7, told);
    NoStep(md5, st, input, policy, w, told.(thumbnail := w.thumbnail));
  }
}
