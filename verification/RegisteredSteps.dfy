/** The pipeline steps the storage service registers, and that their order leaves no choice. */
module RegisteredSteps {
  import opened Entities
  import opened PipelineOrder
  import L = LibraryState
  import S = Sorting

  /** The steps the service registers. */
  const REGISTERED: seq<Step> := [
    Step("CalcHashPipelineStep", 0, {Image, Video}),
    Step("CheckDuplicateByHashPipelineStep", 10, {Image, Video}),
    Step("EncodeOriginalPipelineStep", 20, {Image, Video}),
    Step("VidSlicePipelineStep", 22, {Video}),
    Step("ImgCalcEmbeddingPipelineStep", 30, {Image}),
    Step("VidCalcEmbeddingsPipelineStep", 30, {Video}),
    Step("CheckDuplicateByEmbeddingPipelineStep", 40, {Image}),
    Step("CheckDuplicateByEmbeddingPipelineStep", 40, {Video}),
    Step("ImgLlmExtractPipelineStep", 52, {Image}),
    Step("VidLlmExtractPipelineStep", 52, {Video}),
    Step("CreateThumbnailPipelineStep", 60, {Image, Video})]

  /** Positions repeat among the registered steps, but never within a media type. */
  lemma RegisteredOrderIsDetermined(kind: MetadataType)
    ensures OrderDetermined(REGISTERED, kind)
  {
    RegisteredAreDistinct(kind);
    hide OrderDetermined, DistinctWithin;
    OrderDeterminedIffDistinct(REGISTERED, kind);
  }

  /** The registered step of a media type at a position. */
  function StepAt(kind: MetadataType, pos: int): Step {
    if pos == 0 then REGISTERED[0]
    else if pos == 10 then REGISTERED[1]
    else if pos == 20 then REGISTERED[2]
    else if pos == 22 then REGISTERED[3]
    else if pos == 30 then (if kind.Image? then REGISTERED[4] else REGISTERED[5])
    else if pos == 40 then (if kind.Image? then REGISTERED[6] else REGISTERED[7])
    else if pos == 52 then (if kind.Image? then REGISTERED[8] else REGISTERED[9])
    else REGISTERED[10]
  }

  lemma RegisteredStepAt(kind: MetadataType, s: Step)
    requires s in REGISTERED && kind in s.kinds
    ensures s == StepAt(kind, s.pos)
  {
    var i :| 0 <= i < |REGISTERED| && REGISTERED[i] == s;
  }

  lemma RegisteredAreDistinct(kind: MetadataType)
    ensures DistinctWithin(REGISTERED, kind)
  {
    hide StepAt;
    forall a, b | a in REGISTERED && b in REGISTERED && kind in a.kinds && kind in b.kinds && a.pos == b.pos
      ensures a == b
    {
      RegisteredStepAt(kind, a);
      RegisteredStepAt(kind, b);
    }
  }

  // ---------------------------------------------------------------- the steps LibraryState runs

  /** The key of the registered step that does a step of the library's pipeline. */
  function KeyFor(step: L.PipelineStep, kind: MetadataType): string {
    match step
    case CalcHash => "CalcHashPipelineStep"
    case CheckDuplicateByHash => "CheckDuplicateByHashPipelineStep"
    case EncodeOriginal => "EncodeOriginalPipelineStep"
    case SliceVideo => "VidSlicePipelineStep"
    case CalcEmbeddings => if kind.Image? then "ImgCalcEmbeddingPipelineStep" else "VidCalcEmbeddingsPipelineStep"
    case CheckDuplicateByEmbedding => "CheckDuplicateByEmbeddingPipelineStep"
    case LlmExtract => if kind.Image? then "ImgLlmExtractPipelineStep" else "VidLlmExtractPipelineStep"
    case CreateThumbnail => "CreateThumbnailPipelineStep"
  }

  /** The keys of the library's steps for a media type, in order. */
  function KeysOf(steps: seq<L.PipelineStep>, kind: MetadataType): seq<string> {
    if steps == [] then []
    else (if L.ForKind(steps[0], kind) then [KeyFor(steps[0], kind)] else []) + KeysOf(steps[1..], kind)
  }

  function StepKeys(steps: seq<Step>): seq<string> {
    if steps == [] then [] else [steps[0].key] + StepKeys(steps[1..])
  }

  /** The registered steps from number n on, for a media type. */
  lemma ExecutedFrom(n: nat, kind: MetadataType)
    requires n < |REGISTERED|
    ensures StepKeys(Executed(REGISTERED[n..], kind))
         == (if kind in REGISTERED[n].kinds then [REGISTERED[n].key] else [])
           + StepKeys(Executed(REGISTERED[n + 1..], kind))
  {
    hide StepKeys;
    assert REGISTERED[n..][0] == REGISTERED[n] && REGISTERED[n..][1..] == REGISTERED[n + 1..];
    ExecutedHead(REGISTERED[n..], kind);
    StepKeysHead(Executed(REGISTERED[n..], kind));
  }

  lemma StepKeysHead(steps: seq<Step>)
    ensures steps != [] ==> StepKeys(steps) == [steps[0].key] + StepKeys(steps[1..])
  {
  }

  lemma KeysFrom(n: nat, kind: MetadataType)
    requires n < |L.STEPS|
    ensures KeysOf(L.STEPS[n..], kind)
         == (if L.ForKind(L.STEPS[n], kind) then [KeyFor(L.STEPS[n], kind)] else []) + KeysOf(L.STEPS[n + 1..], kind)
  {
    assert L.STEPS[n..][0] == L.STEPS[n] && L.STEPS[n..][1..] == L.STEPS[n + 1..];
  }

  /** From number n of the registered steps and number m of the library's on, the keys agree. */
  predicate Aligned(n: nat, m: nat, kind: MetadataType)
    requires n <= |REGISTERED| && m <= |L.STEPS|
  {
    StepKeys(Executed(REGISTERED[n..], kind)) == KeysOf(L.STEPS[m..], kind)
  }

  lemma OneForOne(n: nat, m: nat, kind: MetadataType)
    requires n < |REGISTERED| && m < |L.STEPS| && Aligned(n + 1, m + 1, kind)
    requires kind in REGISTERED[n].kinds <==> L.ForKind(L.STEPS[m], kind)
    requires kind in REGISTERED[n].kinds ==> REGISTERED[n].key == KeyFor(L.STEPS[m], kind)
    ensures Aligned(n, m, kind)
  {
    hide StepKeys, Executed, KeysOf, KeyFor;
    ExecutedFrom(n, kind);
    KeysFrom(m, kind);
  }

  /** A step for images and one for videos stand for one step of the library. */
  lemma TwoForOne(n: nat, m: nat, kind: MetadataType)
    requires n + 1 < |REGISTERED| && m < |L.STEPS| && Aligned(n + 2, m + 1, kind) && L.ForKind(L.STEPS[m], kind)
    requires REGISTERED[n].kinds == {Image} && REGISTERED[n + 1].kinds == {Video}
    requires KeyFor(L.STEPS[m], kind) == if kind.Image? then REGISTERED[n].key else REGISTERED[n + 1].key
    ensures Aligned(n, m, kind)
  {
    hide StepKeys, Executed, KeysOf, KeyFor;
    ExecutedFrom(n, kind);
    ExecutedFrom(n + 1, kind);
    KeysFrom(m, kind);
  }

  lemma ThumbnailAligned(kind: MetadataType)
    ensures Aligned(10, 7, kind)
  {
    NothingAfterLast(kind);
    hide Aligned;
    OneForOne(10, 7, kind);
  }

  lemma TextsAligned(kind: MetadataType)
    ensures Aligned(8, 6, kind)
  {
    ThumbnailAligned(kind);
    hide Aligned;
    TwoForOne(8, 6, kind);
  }

  lemma DuplicatesAligned(kind: MetadataType)
    ensures Aligned(6, 5, kind)
  {
    TextsAligned(kind);
    hide Aligned;
    TwoForOne(6, 5, kind);
  }

  lemma EmbeddingsAligned(kind: MetadataType)
    ensures Aligned(4, 4, kind)
  {
    DuplicatesAligned(kind);
    hide Aligned;
    TwoForOne(4, 4, kind);
  }

  lemma SlicesAligned(kind: MetadataType)
    ensures Aligned(3, 3, kind)
  {
    EmbeddingsAligned(kind);
    hide Aligned;
    OneForOne(3, 3, kind);
  }

  lemma EncodingAligned(kind: MetadataType)
    ensures Aligned(2, 2, kind)
  {
    SlicesAligned(kind);
    hide Aligned;
    OneForOne(2, 2, kind);
  }

  lemma HashesAligned(kind: MetadataType)
    ensures Aligned(0, 0, kind)
  {
    EncodingAligned(kind);
    hide Aligned;
    OneForOne(1, 1, kind);
    OneForOne(0, 0, kind);
  }

  lemma RegisteredKeys(kind: MetadataType)
    ensures StepKeys(Executed(REGISTERED, kind)) == KeysOf(L.STEPS, kind)
  {
    hide StepKeys, Executed, KeysOf;
    HashesAligned(kind);
    assert REGISTERED[0..] == REGISTERED && L.STEPS[0..] == L.STEPS;
  }

  lemma NothingAfterLast(kind: MetadataType)
    ensures Aligned(11, 8, kind)
  {
  }

  /**
   However the registered steps are ordered before the service sorts them, and however it sorts them, a run executes,
   for each media type, the steps of the library's pipeline in their order.
   */
  lemma EverySortRunsTheSteps(kind: MetadataType, ys: seq<Step>)
    requires S.IsSortOf(PosOf(), REGISTERED, ys)
    ensures StepKeys(Executed(ys, kind)) == KeysOf(L.STEPS, kind)
  {
    RegisteredOrderIsDetermined(kind);
    RegisteredIsSorted();
    RegisteredKeys(kind);
    hide Executed, KeysOf, StepKeys;
    assert S.IsSortOf(PosOf(), REGISTERED, REGISTERED);
  }

  lemma RegisteredIsSorted()
    ensures S.SortedBy(PosOf(), REGISTERED)
  {
  }
}
