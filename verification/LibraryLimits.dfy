/** Inputs that reach the failures the invariants of LibraryRuns have to except. Each starts from the empty library. */
module LibraryLimits {
  import opened GoText
  import opened Entities
  import opened LibraryState
  import opened PipelineMeaning
  import opened LibraryRuns

  const EMPTY := State(map[], map[])

  /** An image whose calls all go well; encoded is what its bytes are encoded to. */
  function GoodPipeline(encoded: Content): PipelineWorld {
    PipelineWorld(true, true, Some(Rendition(encoded, Sizes(1, 1))), None, Some([EmbeddingItem([1.0])]), Some(None),
                  Some(Texts("", "", "", "")), [], Some(Rendition([], Sizes(1, 1))))
  }

  const GOOD_SAVE := SaveWorld(true, true, true)

  function CreateImage(raw: Content, encoded: Content, id: Id, urls: bool): Op {
    DoCreate(0, Image, raw, id, id, 0, CreateWorld(GoodPipeline(encoded), GOOD_SAVE, urls))
  }

  /** Such a create of new bytes adds its document with the encoded bytes as its original. */
  lemma CreateAdds(md5: Content -> string, st: State, raw: Content, encoded: Content, id: Id, urls: bool)
    requires Keyed(st) && Fresh(st, id, id) && !IsKnown(md5, st, 0, raw, None)
    ensures var t := LibraryRuns.Apply(md5, st, CreateImage(raw, encoded, id, urls));
            && id in t.index && t.index == st.index[id := t.index[id]] && SameElsewhere(st.bucket, t.bucket, id)
            && var d := t.index[id];
               && d.imageId == id && d.s3Id == id && d.accountId == 0 && d.hash == md5(raw) && d.kind == Image
               && !d.edited
               && HasMedia(t, d) && t.bucket[KeyOf(d, Original)] == encoded
    ensures Create(md5, st, 0, Image, raw, id, id, 0, CreateWorld(GoodPipeline(encoded), GOOD_SAVE, urls)).1.Ok? <==>
              urls
  {
    hide Create;
    assert IsNew(md5, st, 0, Image, raw, GoodPipeline(encoded));
    CreateOutcome(md5, st, 0, Image, raw, id, id, 0, CreateWorld(GoodPipeline(encoded), GOOD_SAVE, urls));
  }

  /** A create whose urls cannot be made reports an error, and its document is there. */
  lemma FailedCreateCanAdd(md5: Content -> string, raw: Content) returns (w: CreateWorld)
    ensures var (t, r) := Create(md5, EMPTY, 0, Image, raw, 1, 1, 0, w); r.Err? && 1 in t.index
  {
    hide Create;
    w := CreateWorld(GoodPipeline([]), GOOD_SAVE, false);
    CreateAdds(md5, EMPTY, raw, [], 1, false);
  }

  /** A delete whose second medium cannot be deleted leaves a document with one medium. */
  lemma HalfWayDeleteTearsMedia(md5: Content -> string, raw: Content) returns (ops: seq<Op>, states: seq<State>)
    ensures IsRun(md5, ops, states) && states[0] == EMPTY && !MediaPresent(states[|ops|])
  {
    hide Create, Delete;
    var create, delete := CreateImage(raw, [], 1, true), DoDelete(0, 1, DeleteWorld(true, true, false, true));
    CreateAdds(md5, EMPTY, raw, [], 1, true);
    var created := LibraryRuns.Apply(md5, EMPTY, create);
    DeleteOfOne(created);
    ops, states := [create, delete], [EMPTY, created, LibraryRuns.Apply(md5, created, delete)];
  }

  lemma DeleteOfOne(st: State)
    requires 1 in st.index && st.index[1].accountId == 0
    ensures !MediaPresent(Delete(st, 0, 1, DeleteWorld(true, true, false, true)).0)
  {
    var t := Delete(st, 0, 1, DeleteWorld(true, true, false, true)).0;
    assert !HasMedia(t, t.index[1]);
  }

  // ---------------------------------------- two documents, the first stored as the second's bytes

  /** Bytes x are created and encoded to y, then bytes y are created. */
  lemma TwoDocuments(md5: Content -> string, x: Content, y: Content) returns (ops: seq<Op>, states: seq<State>)
    requires md5(x) != md5(y)
    ensures |ops| == 2 && IsRun(md5, ops, states) && states[0] == EMPTY
    ensures HasTwoDocuments(md5, states[2], y) && HashUnique(states[2]) && MediaPresent(states[2])
  {
    hide Create;
    var first, second := CreateImage(x, y, 1, true), CreateImage(y, y, 2, true);
    CreateAdds(md5, EMPTY, x, y, 1, true);
    var one := LibraryRuns.Apply(md5, EMPTY, first);
    assert Keyed(one);
    CreateAdds(md5, one, y, y, 2, true);
    ops, states := [first, second], [EMPTY, one, LibraryRuns.Apply(md5, one, second)];
  }

  /** Documents 1 and 2 of one account; y is stored as the original of 1, and its hash is that of 2. */
  ghost predicate HasTwoDocuments(md5: Content -> string, st: State, y: Content) {
    && Keyed(st) && 1 in st.index && 2 in st.index
    && var d, e := st.index[1], st.index[2];
       && d.kind == Image && !d.edited && d.accountId == e.accountId
       && KeyOf(d, Original) in st.bucket && st.bucket[KeyOf(d, Original)] == y && e.hash == md5(y)
  }

  function RecomputeFirst(o: Options, encoded: Content): Op {
    DoRecompute(1, o, 0, RecomputeWorld(true, true, GoodPipeline(encoded), DeleteWorld(true, true, true, true),
                                        GOOD_SAVE))
  }

  lemma AppendStep(md5: Content -> string, ops: seq<Op>, states: seq<State>, op: Op)
    returns (ops': seq<Op>, states': seq<State>)
    requires IsRun(md5, ops, states) && Legal(states[|ops|], op)
    ensures IsRun(md5, ops', states') && ops' == ops + [op]
    ensures states' == states + [LibraryRuns.Apply(md5, states[|ops|], op)]
  {
    hide Legal;
    ops', states' := ops + [op], states + [LibraryRuns.Apply(md5, states[|ops|], op)];
  }

  const NOTHING_SELECTED := Options(false, false, false, false, false)

  /** A recompute of the first document takes its hash from its stored original, and now both documents have it. */
  lemma RecomputeCanRepeatHash(md5: Content -> string, x: Content, y: Content)
    returns (ops: seq<Op>, states: seq<State>)
    requires md5(x) != md5(y)
    ensures |ops| == 3 && IsRun(md5, ops, states) && states[0] == EMPTY
    ensures HashUnique(states[2]) && !HashUnique(states[3])
  {
    hide HashUnique, HasTwoDocuments;
    ops, states := TwoDocuments(md5, x, y);
    RecomputeRepeats(md5, states[2], y);
    ops, states := AppendStep(md5, ops, states, RecomputeFirst(NOTHING_SELECTED, y));
  }

  /** A recompute with nothing selected still takes the hash anew. */
  lemma RecomputeRepeats(md5: Content -> string, st: State, y: Content)
    requires HasTwoDocuments(md5, st, y)
    ensures Legal(st, RecomputeFirst(NOTHING_SELECTED, y))
    ensures !HashUnique(LibraryRuns.Apply(md5, st, RecomputeFirst(NOTHING_SELECTED, y)))
  {
    hide Recompute;
    var w := RecomputeFirst(NOTHING_SELECTED, y).recompute;
    RecomputeOutcome(md5, st, 1, NOTHING_SELECTED, 0, w);
    var t := LibraryRuns.Apply(md5, st, RecomputeFirst(NOTHING_SELECTED, y));
    assert SameBytes(t.index[1], t.index[2]);
  }

  const DROP_DUPLICATES := Options(false, true, false, true, false)

  /**
   A recompute of the first document that removes duplicates but stores nothing again succeeds, removes another
   document, and leaves its own without media.
   */
  lemma DuplicateRemovalDropsMedia(md5: Content -> string, x: Content, y: Content)
    returns (ops: seq<Op>, states: seq<State>)
    requires md5(x) != md5(y)
    ensures |ops| == 3 && IsRun(md5, ops, states) && states[0] == EMPTY && MediaPresent(states[2])
    ensures 1 in states[3].index && states[3].index.Keys < states[2].index.Keys
            && !HasMedia(states[3], states[3].index[1])
    ensures var op := ops[2];
            op.DoRecompute? && Recompute(md5, states[2], states[2].index[op.id], op.options, op.now, op.recompute).1.Ok?
  {
    hide MediaPresent, HasTwoDocuments, Recompute;
    ops, states := TwoDocuments(md5, x, y);
    RemovalDropsMedia(md5, states[2], y);
    ops, states := AppendStep(md5, ops, states, RecomputeFirst(DROP_DUPLICATES, y));
  }

  lemma RemovalDropsMedia(md5: Content -> string, st: State, y: Content)
    requires HasTwoDocuments(md5, st, y) && MediaPresent(st)
    ensures var op := RecomputeFirst(DROP_DUPLICATES, y);
            && Legal(st, op)
            && Recompute(md5, st, st.index[1], DROP_DUPLICATES, 0, op.recompute).1.Ok?
            && var t := LibraryRuns.Apply(md5, st, op);
               1 in t.index && t.index.Keys < st.index.Keys && !HasMedia(t, t.index[1])
  {
    hide Recompute;
    var d, w := st.index[1], RecomputeFirst(DROP_DUPLICATES, y).recompute;
    assert IsKnown(md5, st, d.accountId, y, Some(1)) by {
      assert st.index[2].accountId == d.accountId && st.index[2].hash == md5(y);
    }
    assert GoesAsFar(st, d, DROP_DUPLICATES, w) && Duplicate(md5, st, d, DROP_DUPLICATES, w).Some?;
    RecomputeOutcome(md5, st, 1, DROP_DUPLICATES, 0, w);
    DuplicateBranchDropsOwnMedia(md5, st, 1, DROP_DUPLICATES, 0, w);
  }
}
