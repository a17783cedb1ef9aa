/** The steps that work on the slices of a video in parallel: what they find must not depend on who finishes first. */
module SliceMerge {
  import opened GoText
  import opened Entities
  import opened Sorting

  /** A numbered slice of a video, with its own times. */
  datatype Slice = Slice(number: nat, startTime: int, endTime: int)

  datatype SliceResult = SliceResult(slice: Slice, texts: Texts)

  datatype Merged = Merged(result: Texts, perSlice: seq<SliceTexts>)

  function NumberOf(): SliceResult -> int {
    (r: SliceResult) => r.slice.number
  }

  function TextsOf(): SliceResult -> Texts {
    (r: SliceResult) => r.texts
  }

  function Reported(): SliceResult -> SliceTexts {
    (r: SliceResult) => SliceTexts(r.slice.number, r.slice.startTime, r.slice.endTime, r.texts)
  }

  /** What a slice yields, once the model has answered for it. */
  function Answer(extract: Slice -> Option<Texts>): Slice -> SliceResult {
    (s: Slice) => SliceResult(s, if extract(s).Some? then extract(s).value else Texts("", "", "", ""))
  }

  /** Slices are numbered in order. */
  predicate Numbered(slices: seq<Slice>) {
    forall i :: 0 <= i < |slices| ==> slices[i].number == i
  }

  ghost predicate AllAnswered(slices: seq<Slice>, extract: Slice -> Option<Texts>) {
    forall i :: 0 <= i < |slices| ==> extract(slices[i]).Some?
  }

  /** What the step produces, defined by the slices alone. A single slice needs no combining. */
  function Outcome(slices: seq<Slice>, extract: Slice -> Option<Texts>,
                   combine: seq<Texts> -> Option<Texts>): Result<Merged> {
    var results := Map(Answer(extract), slices);
    if slices == [] || (exists i :: 0 <= i < |slices| && extract(slices[i]).None?) then Err
    else
      var combined := if |slices| == 1 then Some(results[0].texts) else combine(Map(TextsOf(), results));
      if combined.None? then Err else Ok(Merged(combined.value, Map(Reported(), results)))
  }

  /**
   The parallel extraction: finished is the order in which the workers append their results or errors, any permutation
   of the slices. The results are then sorted by number, unstably.
   */
  method ExtractSlices(slices: seq<Slice>, extract: Slice -> Option<Texts>, combine: seq<Texts> -> Option<Texts>,
                       finished: seq<Slice>) returns (r: Result<Merged>)
    requires Numbered(slices) && multiset(finished) == multiset(slices)
    ensures r == Outcome(slices, extract, combine)
  {
    if |slices| == 0 {
      return Err;
    }
    var errs := 0;
    var results: seq<SliceResult> := [];
    for i := 0 to |finished|
      invariant errs == 0 <==> forall k :: 0 <= k < i ==> extract(finished[k]).Some?
      invariant errs == 0 ==> results == Map(Answer(extract), finished[..i])
    {
      assert finished[..i + 1] == finished[..i] + [finished[i]];
      match extract(finished[i])
      case None => errs := errs + 1;
      case Some(texts) => results := results + [SliceResult(finished[i], texts)];
    }
    assert finished[..|finished|] == finished;
    SameAnswers(slices, finished, extract);
    if errs > 0 {
      return Err;
    }
    MapKeepsPermutations(Answer(extract), finished, slices);
    var sorted := SortFunc(NumberOf(), results);
    SortedAnswers(slices, extract, sorted);
    var combined := if |sorted| == 1 then Some(sorted[0].texts) else combine(Map(TextsOf(), sorted));
    if combined.None? {
      return Err;
    }
    r := Ok(Merged(combined.value, Map(Reported(), sorted)));
  }

  lemma SameAnswers(slices: seq<Slice>, finished: seq<Slice>, extract: Slice -> Option<Texts>)
    requires multiset(finished) == multiset(slices)
    ensures (forall k :: 0 <= k < |finished| ==> extract(finished[k]).Some?) <==> AllAnswered(slices, extract)
  {
    assert forall s :: s in finished <==> s in multiset(finished);
    assert forall s :: s in slices <==> s in multiset(slices);
    forall k | 0 <= k < |finished|
      ensures finished[k] in slices
    {
      assert finished[k] in multiset(finished);
    }
    forall k | 0 <= k < |slices|
      ensures slices[k] in finished
    {
      assert slices[k] in multiset(slices);
    }
  }

  /** Sorted by number, the answers are in slice order. */
  lemma SortedAnswers(slices: seq<Slice>, extract: Slice -> Option<Texts>, sorted: seq<SliceResult>)
    requires Numbered(slices) && SortedBy(NumberOf(), sorted)
    requires multiset(sorted) == multiset(Map(Answer(extract), slices))
    ensures sorted == Map(Answer(extract), slices)
  {
    var inOrder := Map(Answer(extract), slices);
    assert SortedBy(NumberOf(), inOrder);
    forall a, b | a in multiset(inOrder) && b in multiset(inOrder) && NumberOf()(a) == NumberOf()(b)
      ensures a == b
    {
      assert a in inOrder && b in inOrder;
    }
    SortsAgree(NumberOf(), inOrder, sorted);
  }

  /**
   If the model answers for every slice: the result is made of these texts in slice order, or is the one slice's own; it
   is there exactly if there are slices and their texts can be combined; and each slice is reported once, in order, with
   its own times and texts.
   */
  lemma OutcomeKeepsSlices(slices: seq<Slice>, extract: Slice -> Option<Texts>, combine: seq<Texts> -> Option<Texts>,
                           texts: seq<Texts>)
    requires |texts| == |slices| && forall i :: 0 <= i < |slices| ==> extract(slices[i]) == Some(texts[i])
    ensures var r := Outcome(slices, extract, combine);
            && (r.Ok? <==> |slices| == 1 || (|slices| > 1 && combine(texts).Some?))
            && (r.Ok? ==>
                  && (if |slices| == 1 then r.value.result == texts[0] else combine(texts) == Some(r.value.result))
                  && |r.value.perSlice| == |slices|
                  && forall i :: 0 <= i < |slices| ==>
                       r.value.perSlice[i] == SliceTexts(slices[i].number, slices[i].startTime, slices[i].endTime,
                                                         texts[i]))
  {
    assert Map(TextsOf(), Map(Answer(extract), slices)) == texts;
  }

  /** If there is a slice for which the model does not answer, there is no result. */
  lemma OutcomeNeedsAllAnswers(slices: seq<Slice>, extract: Slice -> Option<Texts>,
                               combine: seq<Texts> -> Option<Texts>, i: nat)
    requires i < |slices| && extract(slices[i]).None?
    ensures Outcome(slices, extract, combine) == Err
  {
  }

  // ---------------------------------------------------------------- duplicate vote

  /** One embedding looked up: whether its vector is empty, and the documents close to it, if the query went through. */
  datatype Probe = Probe(empty: bool, matches: Option<set<Id>>)

  function Hits(id: Id): Probe -> bool {
    (p: Probe) => p.matches.Some? && id in p.matches.value
  }

  /** The number of embeddings a document is close to. */
  function Votes(probes: seq<Probe>, id: Id): nat {
    multiset(Map(Hits(id), probes))[true]
  }

  /** Enough of the embeddings match this document. */
  predicate Elected(probes: seq<Probe>, threshold: real, id: Id) {
    Votes(probes, id) > 0 && probes != [] && Votes(probes, id) as real / |probes| as real >= threshold
  }

  predicate NoneEmpty(probes: seq<Probe>) {
    forall i :: 0 <= i < |probes| ==> !probes[i].empty
  }

  /** Whether some document is declared the duplicate. One empty vector calls the whole vote off. */
  ghost predicate Declared(probes: seq<Probe>, threshold: real) {
    NoneEmpty(probes) && exists id :: Elected(probes, threshold, id)
  }

  lemma VotesStep(probes: seq<Probe>, p: Probe, id: Id)
    ensures Votes(probes + [p], id) == Votes(probes, id) + if Hits(id)(p) then 1 else 0
  {
    assert Map(Hits(id), probes + [p]) == Map(Hits(id), probes) + [Hits(id)(p)];
  }

  lemma VotesStepAll(probes: seq<Probe>, p: Probe)
    requires p.matches.Some?
    ensures forall id :: Votes(probes + [p], id) == Votes(probes, id) + if id in p.matches.value then 1 else 0
  {
    forall id
      ensures Votes(probes + [p], id) == Votes(probes, id) + if id in p.matches.value then 1 else 0
    {
      VotesStep(probes, p, id);
    }
  }

  /** The embeddings a document is close to. */
  function VotersOf(probes: seq<Probe>, id: Id): set<nat> {
    set i: nat | i < |probes| && probes[i].matches.Some? && id in probes[i].matches.value
  }

  lemma {:induction false} VotesAreVoters(probes: seq<Probe>, id: Id)
    ensures Votes(probes, id) == |VotersOf(probes, id)|
  {
    if probes == [] {
      assert Map(Hits(id), probes) == [];
      assert VotersOf(probes, id) == {};
    } else {
      var rest, last := probes[..|probes| - 1], |probes| - 1;
      VotesAreVoters(rest, id);
      VotesStep(rest, probes[last], id);
      assert probes == rest + [probes[last]];
      assert VotersOf(probes, id) == VotersOf(rest, id) + if Hits(id)(probes[last]) then {last} else {};
    }
  }

  /** A document is elected if it is close to some embedding, and to at least that share of all of them. */
  lemma ElectedIff(probes: seq<Probe>, threshold: real, id: Id)
    ensures var voters := |VotersOf(probes, id)|;
            Elected(probes, threshold, id) <==> voters > 0 && voters as real >= threshold * |probes| as real
  {
    VotesAreVoters(probes, id);
    var v, n := Votes(probes, id) as real, |probes| as real;
    if |probes| > 0 {
      assert v == (v / n) * n;
      ScaledOrder(v / n, threshold, n);
    } else {
      assert VotersOf(probes, id) == {};
    }
  }

  lemma ScaledOrder(x: real, y: real, n: real)
    requires n > 0.0
    ensures x >= y <==> x * n >= y * n
  {
    if x >= y {
      assert (x - y) * n >= 0.0;
    } else {
      assert (y - x) * n > 0.0;
    }
  }

  method CountMatches(lastMatched: map<Id, nat>, matches: set<Id>) returns (counted: map<Id, nat>)
    ensures counted.Keys == lastMatched.Keys + matches
    ensures forall id :: id in counted ==>
              counted[id] == (if id in lastMatched then lastMatched[id] else 0) + (if id in matches then 1 else 0)
  {
    counted := lastMatched;
    var rest := matches;
    while rest != {}
      invariant rest <= matches
      invariant counted.Keys == lastMatched.Keys + (matches - rest)
      invariant forall id :: id in counted ==>
                  counted[id] == (if id in lastMatched then lastMatched[id] else 0)
                    + (if id in matches - rest then 1 else 0)
      decreases rest
    {
      var id :| id in rest;
      counted := counted[id := if id in counted then counted[id] + 1 else 1];
      rest := rest - {id};
    }
  }

  /** Some query fails before an empty vector calls the vote off. */
  predicate QueryFails(probes: seq<Probe>) {
    exists i :: 0 <= i < |probes| && probes[i].matches.None? && NoneEmpty(probes[..i + 1])
  }

  /** How the elected document is looked up: it may have been deleted meanwhile. */
  datatype Lookup = LookupFails | Missing | Found

  /**
   The vote over a video's embeddings. The winner is whichever elected document the iteration over the counts meets
   first.
   */
  method CheckDuplicate(probes: seq<Probe>, threshold: real, lookup: Lookup) returns (r: Result<Option<Id>>)
    ensures QueryFails(probes) ==> r.Err?
    ensures !QueryFails(probes) && !Declared(probes, threshold) ==> r == Ok(None)
    ensures !QueryFails(probes) && Declared(probes, threshold) ==>
              match lookup
              case LookupFails => r.Err?
              case Missing => r == Ok(None)
              case Found => r.Ok? && r.value.Some? && Elected(probes, threshold, r.value.value)
  {
    hide Votes;
    var lastMatched: map<Id, nat> := map[];
    NoProbesNoVotes([]);
    assert probes[..0] == [];
    for i := 0 to |probes|
      invariant forall k :: 0 <= k < i ==> !probes[k].empty && probes[k].matches.Some?
      invariant forall id :: id in lastMatched ==> lastMatched[id] == Votes(probes[..i], id) > 0
      invariant forall id :: id !in lastMatched ==> Votes(probes[..i], id) == 0
    {
      FirstFlaw(probes, i);
      if probes[i].empty {
        return Ok(None);
      }
      if probes[i].matches.None? {
        return Err;
      }
      assert probes[..i + 1] == probes[..i] + [probes[i]];
      VotesStepAll(probes[..i], probes[i]);
      lastMatched := CountMatches(lastMatched, probes[i].matches.value);
    }
    assert probes[..|probes|] == probes;
    NoProbesNoVotes(probes);
    var elected := set id | id in lastMatched && lastMatched[id] as real / |probes| as real >= threshold;
    assert forall id :: id in elected <==> Elected(probes, threshold, id);
    if elected == {} {
      return Ok(None);
    }
    var id :| id in elected;
    match lookup
    case LookupFails => r := Err;
    case Missing => r := Ok(None);
    case Found => r := Ok(Some(id));
  }

  /** The first embedding that is empty or cannot be looked up decides how the vote ends. */
  lemma FirstFlaw(probes: seq<Probe>, i: nat)
    requires i < |probes| && forall k :: 0 <= k < i ==> !probes[k].empty && probes[k].matches.Some?
    ensures probes[i].empty ==> !QueryFails(probes) && !NoneEmpty(probes)
    ensures !probes[i].empty && probes[i].matches.None? ==> QueryFails(probes)
  {
    if probes[i].empty {
      forall j | 0 <= j < |probes| && probes[j].matches.None?
        ensures !NoneEmpty(probes[..j + 1])
      {
        assert i <= j && probes[..j + 1][i] == probes[i];
      }
    } else if probes[i].matches.None? {
      assert NoneEmpty(probes[..i + 1]);
    }
  }

  lemma NoProbesNoVotes(probes: seq<Probe>)
    ensures probes == [] ==> forall id :: Votes(probes, id) == 0
  {
    if probes == [] {
      assert forall id :: Map(Hits(id), probes) == [];
    }
  }

  /** Whether a duplicate is declared depends on the embeddings only as a multiset. */
  lemma VoteIgnoresOrder(probes: seq<Probe>, reordered: seq<Probe>, threshold: real)
    requires multiset(probes) == multiset(reordered)
    ensures Declared(probes, threshold) <==> Declared(reordered, threshold)
    ensures forall id :: Votes(probes, id) == Votes(reordered, id)
  {
    forall id
      ensures Votes(probes, id) == Votes(reordered, id)
    {
      MapKeepsPermutations(Hits(id), probes, reordered);
    }
    assert |multiset(probes)| == |probes| && |multiset(reordered)| == |reordered|;
    SameFilling(probes, reordered);
    SameFilling(reordered, probes);
    assert forall id :: Elected(probes, threshold, id) <==> Elected(reordered, threshold, id);
  }

  lemma SameFilling(probes: seq<Probe>, reordered: seq<Probe>)
    requires multiset(probes) == multiset(reordered)
    ensures NoneEmpty(probes) ==> NoneEmpty(reordered)
  {
    if NoneEmpty(probes) {
      forall i | 0 <= i < |reordered|
        ensures !reordered[i].empty
      {
        assert reordered[i] in multiset(reordered);
        assert reordered[i] in probes;
      }
    }
  }
}
