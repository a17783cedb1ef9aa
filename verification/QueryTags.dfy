/** How the telegram service takes the media type out of a search text: "-type:image" and "-type:video" tags. */
module QueryTags {
  import opened GoText

  datatype Kind = Image | Video

  /** The white space the pattern's \s stands for. */
  predicate IsPatternSpace(c: char) {
    c == ' ' || 9 <= c as int <= 10 || 12 <= c as int <= 13
  }

  /** The white space strings.TrimSpace removes. */
  predicate IsSpace(c: char) {
    var n := c as int;
    || 9 <= n <= 13 || n == 0x20 || n == 0x85 || n == 0xA0 || n == 0x1680 || 0x2000 <= n <= 0x200A
    || n == 0x2028 || n == 0x2029 || n == 0x202F || n == 0x205F || n == 0x3000
  }

  function LowerChar(c: char): char {
    if 'A' <= c <= 'Z' then (c as int + 32) as char else c
  }

  function Lower(s: string): (r: string)
    ensures |r| == |s|
  {
    seq(|s|, i requires 0 <= i < |s| => LowerChar(s[i]))
  }

  const TAG_LENGTH: nat := 11

  /** The kind of the tag that starts at k. */
  function TagAt(s: string, k: nat): (r: Option<Kind>)
    ensures r.Some? ==> k + TAG_LENGTH <= |s|
  {
    if k + TAG_LENGTH > |s| then None
    else if Lower(s[k..k + TAG_LENGTH]) == "-type:image" then Some(Image)
    else if Lower(s[k..k + TAG_LENGTH]) == "-type:video" then Some(Video)
    else None
  }

  /** The text is this one, in lower-case letters, in capitals, or mixed. */
  predicate SpelledLike(s: string, lower: string) {
    |s| == |lower| && forall i :: 0 <= i < |s| ==> s[i] == lower[i] || IsCapitalOf(s[i], lower[i])
  }

  predicate IsCapitalOf(c: char, lower: char) {
    'a' <= lower <= 'z' && c as int == lower as int - 32
  }

  /** The eleven characters that ask for a kind. */
  predicate IsTag(s: string, kind: Kind) {
    match kind
    case Image => SpelledLike(s, "-type:image")
    case Video => SpelledLike(s, "-type:video")
  }

  ghost predicate HasTag(s: string) {
    exists before, tag, kind, after :: s == before + tag + after && IsTag(tag, kind)
  }

  /** The first position from i on that holds no white space of the pattern. */
  function SkipSpace(s: string, i: nat): (j: nat)
    requires i <= |s|
    ensures i <= j <= |s|
    decreases |s| - i
  {
    if i < |s| && IsPatternSpace(s[i]) then SkipSpace(s, i + 1) else i
  }

  /** A match of the whole pattern: s[start..end], with the tag at an index of its own. */
  datatype Match = Match(start: nat, tag: nat, end: nat)

  /** The leftmost match from i on, as long as the greedy pattern makes it. */
  function Find(s: string, i: nat): (r: Option<Match>)
    requires i <= |s|
    ensures r.Some? ==> i <= r.value.start <= r.value.tag && r.value.tag + TAG_LENGTH <= r.value.end <= |s|
    decreases |s| - i
  {
    var k := SkipSpace(s, i);
    if TagAt(s, k).Some? then Some(Match(i, k, SkipSpace(s, k + TAG_LENGTH)))
    else if i < |s| then Find(s, i + 1)
    else None
  }

  /** Every match from i on replaced by one blank. */
  function ReplaceAll(s: string, i: nat): string
    requires i <= |s|
    decreases |s| - i
  {
    match Find(s, i)
    case None => s[i..]
    case Some(m) => s[i..m.start] + " " + ReplaceAll(s, m.end)
  }

  function TrimLeft(s: string): string {
    if s != "" && IsSpace(s[0]) then TrimLeft(s[1..]) else s
  }

  function TrimRight(s: string): string {
    if s != "" && IsSpace(s[|s| - 1]) then TrimRight(s[..|s| - 1]) else s
  }

  function TrimSpace(s: string): string {
    TrimRight(TrimLeft(s))
  }

  function TrimPrefix(s: string, prefix: string): string {
    if prefix <= s then s[|prefix|..] else s
  }

  // ---------------------------------------------------------------- what a query turns into

  /** The text s is what is kept, with one of the gaps between each two kept pieces. */
  function Interleave(kept: seq<string>, gaps: seq<string>): string
    requires |kept| == |gaps| + 1
  {
    if gaps == [] then kept[0] else kept[0] + gaps[0] + Interleave(kept[1..], gaps[1..])
  }

  function Blanks(n: nat): (r: seq<string>)
    ensures |r| == n
  {
    if n == 0 then [] else [" "] + Blanks(n - 1)
  }

  ghost predicate AllSpace(s: string) {
    forall i :: 0 <= i < |s| ==> IsPatternSpace(s[i])
  }

  /** White space, a tag of this kind, white space. */
  ghost predicate IsGap(s: string, kind: Kind) {
    exists before, tag, after ::
      s == before + tag + after && AllSpace(before) && IsTag(tag, kind) && AllSpace(after)
  }

  predicate StartsWithSpace(s: string) {
    s != "" && IsPatternSpace(s[0])
  }

  predicate EndsWithSpace(s: string) {
    s != "" && IsPatternSpace(s[|s| - 1])
  }

  /**
   How a text with tags falls apart: tag-free pieces, between them gaps that hold one tag and all white space around it.
   */
  ghost predicate IsSplit(s: string, kept: seq<string>, gaps: seq<string>, kinds: seq<Kind>) {
    && |kept| == |gaps| + 1 && |kinds| == |gaps|
    && s == Interleave(kept, gaps)
    && (forall p :: 0 <= p < |kept| ==> !HasTag(kept[p]))
    && (forall p :: 0 < p < |kept| ==> !StartsWithSpace(kept[p]))
    && (forall p :: 0 <= p < |gaps| ==> !EndsWithSpace(kept[p]))
    && forall g :: 0 <= g < |gaps| ==> IsGap(gaps[g], kinds[g])
  }

  /** The search text and media type made of a query; the processors differ in their prefix. */
  method Process(query: string, prefix: string) returns (text: string, kind: Option<Kind>)
    ensures var trimmed := TrimSpace(TrimPrefix(query, prefix));
            && !HasTag(text)
            && (kind.None? <==> !HasTag(trimmed))
            && (kind.None? ==> text == trimmed)
            && exists kept, gaps, kinds ::
                 && IsSplit(trimmed, kept, gaps, kinds)
                 && text == TrimSpace(Interleave(kept, Blanks(|gaps|)))
                 && kind == if kinds == [] then None else Some(kinds[0])
  {
    hide TagAt, Find, ReplaceAll, TrimLeft, TrimRight, HasTag;
    text, kind := TrimSpace(TrimPrefix(query, prefix)), None;
    var found := Find(text, 0);
    ghost var kept, gaps, kinds := SplitOf(text, 0);
    FindIsExact(text, 0);
    HasTagAt(text);
    TrimIsIdempotent(TrimPrefix(query, prefix));
    if found.Some? {
      kind := TagAt(text, found.value.tag);
      NoTagLeft(text, 0);
      TrimLeavesNoTag(ReplaceAll(text, 0));
      text := TrimSpace(ReplaceAll(text, 0));
    }
  }

  /** A processed query has nothing left to process: only the prefix would still be looked for. */
  lemma ProcessedIsFixed(query: string)
    requires !HasTag(TrimSpace(query))
    ensures var text := TrimSpace(query); TrimSpace(TrimPrefix(text, "")) == text && Find(text, 0) == None
  {
    hide TagAt, TrimSpace, HasTag;
    HasTagAt(TrimSpace(query));
    FindIsExact(TrimSpace(query), 0);
    TrimIsIdempotent(query);
  }

  // ---------------------------------------------------------------- tags

  lemma LowerIsSpelling(s: string, lower: string)
    requires |s| == |lower| && forall i :: 0 <= i < |lower| ==> !('A' <= lower[i] <= 'Z')
    ensures Lower(s) == lower <==> SpelledLike(s, lower)
  {
    if SpelledLike(s, lower) {
      forall i | 0 <= i < |s|
        ensures Lower(s)[i] == lower[i]
      {
        assert s[i] == lower[i] || IsCapitalOf(s[i], lower[i]);
      }
    } else {
      var i :| 0 <= i < |s| && !(s[i] == lower[i] || IsCapitalOf(s[i], lower[i]));
      assert Lower(s)[i] == LowerChar(s[i]);
    }
  }

  /** Where the code sees a tag of a kind the text spells it, and nowhere else. */
  lemma TagAtIsSpelling(s: string, k: nat, kind: Kind)
    ensures TagAt(s, k) == Some(kind) <==> k + TAG_LENGTH <= |s| && IsTag(s[k..k + TAG_LENGTH], kind)
  {
    if k + TAG_LENGTH <= |s| {
      var piece := s[k..k + TAG_LENGTH];
      LiteralsAreLower();
      LowerIsSpelling(piece, "-type:image");
      LowerIsSpelling(piece, "-type:video");
      assert "-type:image"[6] != "-type:video"[6];
    }
  }

  lemma LiteralsAreLower()
    ensures forall i :: 0 <= i < TAG_LENGTH ==> !('A' <= "-type:image"[i] <= 'Z') && !('A' <= "-type:video"[i] <= 'Z')
  {
  }

  lemma HasTagAt(s: string)
    ensures HasTag(s) <==> exists k: nat :: TagAt(s, k).Some?
  {
    hide TagAt, IsTag;
    if HasTag(s) {
      var before, tag, kind, after :| s == before + tag + after && IsTag(tag, kind);
      TagIsEleven(tag, kind);
      assert s[|before|..|before| + TAG_LENGTH] == tag;
      TagAtIsSpelling(s, |before|, kind);
    }
    if k: nat :| TagAt(s, k).Some? {
      TagAtIsSpelling(s, k, TagAt(s, k).value);
      assert s == s[..k] + s[k..k + TAG_LENGTH] + s[k + TAG_LENGTH..];
    }
  }

  lemma TagIsEleven(tag: string, kind: Kind)
    requires IsTag(tag, kind)
    ensures |tag| == TAG_LENGTH
  {
  }

  lemma TagHasNoSpace(s: string, k: nat, j: nat)
    requires TagAt(s, k).Some? && j < TAG_LENGTH
    ensures !IsPatternSpace(s[k + j])
  {
    var low := Lower(s[k..k + TAG_LENGTH]);
    assert low[j] == LowerChar(s[k + j]);
    LiteralsHaveNoSpace(j);
  }

  lemma LiteralsHaveNoSpace(j: nat)
    requires j < TAG_LENGTH
    ensures !IsPatternSpace("-type:image"[j]) && !IsPatternSpace("-type:video"[j])
  {
    assert forall i :: 0 <= i < TAG_LENGTH ==> "-type:image"[i] in {'-', 't', 'y', 'p', 'e', ':', 'i', 'm', 'a', 'g'};
    assert forall i :: 0 <= i < TAG_LENGTH ==> "-type:video"[i] in {'-', 't', 'y', 'p', 'e', ':', 'i', 'v', 'd', 'o'};
  }

  lemma TagInSlice(s: string, a: nat, b: nat, k: nat)
    requires a <= b <= |s| && a + k + TAG_LENGTH <= b
    ensures TagAt(s[a..b], k) == TagAt(s, a + k)
  {
    SliceOfSlice(s, a, b, k, k + TAG_LENGTH);
  }

  lemma SliceOfSlice(s: string, a: nat, b: nat, c: nat, d: nat)
    requires a <= b <= |s| && c <= d && a + d <= b
    ensures s[a..b][c..d] == s[a + c..a + d]
  {
    forall j | 0 <= j < d - c
      ensures s[a..b][c..d][j] == s[a + c..a + d][j]
    {
      assert s[a..b][c..d][j] == s[a..b][c + j] == s[a + c + j];
    }
  }

  lemma SliceKeepsTagsOut(s: string, a: nat, b: nat)
    requires a <= b <= |s| && forall k :: a <= k && k + TAG_LENGTH <= b ==> TagAt(s, k).None?
    ensures !HasTag(s[a..b])
  {
    HasTagAt(s[a..b]);
    if HasTag(s[a..b]) {
      var k: nat :| TagAt(s[a..b], k).Some?;
      TagInSlice(s, a, b, k);
      assert false;
    }
  }

  lemma NoTagAcross(a: string, b: string)
    requires !HasTag(a) && !HasTag(b)
    ensures !HasTag(a + " " + b)
  {
    hide TagAt;
    var s := a + " " + b;
    assert s[0..|a|] == a && s[|a| + 1..|s|] == b && IsPatternSpace(s[|a|]);
    hide IsPatternSpace, HasTag;
    HasTagAt(a);
    HasTagAt(b);
    HasTagAt(s);
    forall k: nat
      ensures TagAt(s, k).None?
    {
      if TagAt(s, k).Some? {
        if k + TAG_LENGTH <= |a| {
          TagInSlice(s, 0, |a|, k);
        } else if k > |a| {
          TagInSlice(s, |a| + 1, |s|, k - |a| - 1);
        } else {
          TagHasNoSpace(s, k, |a| - k);
        }
      }
    }
  }

  // ---------------------------------------------------------------- matches

  lemma {:induction false} SkipSpaceIsRun(s: string, i: nat)
    requires i <= |s|
    ensures var j := SkipSpace(s, i);
            (forall k :: i <= k < j ==> IsPatternSpace(s[k])) && (j < |s| ==> !IsPatternSpace(s[j]))
    decreases |s| - i
  {
    if i < |s| && IsPatternSpace(s[i]) {
      SkipSpaceIsRun(s, i + 1);
    }
  }

  /** Where a tag starts there is no white space. */
  lemma TagStart(s: string, k: nat)
    ensures TagAt(s, k).Some? ==> k < |s| && !IsPatternSpace(s[k])
  {
    if TagAt(s, k).Some? {
      TagHasNoSpace(s, k, 0);
    }
  }

  /**
   Find returns the match of the pattern that starts first, extended as far as it goes on both sides, and None only when
   no tag is left.
   */
  lemma {:induction false} FindIsExact(s: string, i: nat)
    requires i <= |s|
    ensures Find(s, i).None? ==> forall k :: k >= i ==> TagAt(s, k).None?
    ensures Find(s, i).Some? ==>
              var m := Find(s, i).value;
              && TagAt(s, m.tag).Some?
              && (forall k :: i <= k < m.tag ==> TagAt(s, k).None?)
              && (forall k :: m.start <= k < m.tag || m.tag + TAG_LENGTH <= k < m.end ==> IsPatternSpace(s[k]))
              && (m.start > i ==> !IsPatternSpace(s[m.start - 1]))
              && (m.end < |s| ==> !IsPatternSpace(s[m.end]))
    decreases |s| - i
  {
    hide TagAt, IsPatternSpace;
    var k := SkipSpace(s, i);
    SkipSpaceIsRun(s, i);
    forall q | i <= q < k
      ensures TagAt(s, q).None?
    {
      TagStart(s, q);
    }
    if TagAt(s, k).Some? {
      SkipSpaceIsRun(s, k + TAG_LENGTH);
    } else if i < |s| {
      FindIsExact(s, i + 1);
    } else {
      NoTagPastEnd(s);
    }
  }

  lemma NoTagPastEnd(s: string)
    ensures forall k :: k >= |s| ==> TagAt(s, k).None?
  {
  }

  /** Replacing every match leaves no tag, not even one put together from what stood around the matches. */
  lemma {:induction false} NoTagLeft(s: string, i: nat)
    requires i <= |s|
    ensures !HasTag(ReplaceAll(s, i))
    decreases |s| - i
  {
    hide TagAt, IsPatternSpace;
    FindIsExact(s, i);
    match Find(s, i)
    case None =>
      SliceKeepsTagsOut(s, i, |s|);
      assert s[i..|s|] == s[i..];
    case Some(m) =>
      SliceKeepsTagsOut(s, i, m.start);
      NoTagLeft(s, m.end);
      NoTagAcross(s[i..m.start], ReplaceAll(s, m.end));
  }

  lemma {:induction false} SplitOf(s: string, i: nat) returns (kept: seq<string>, gaps: seq<string>, kinds: seq<Kind>)
    requires i <= |s|
    ensures IsSplit(s[i..], kept, gaps, kinds)
    ensures ReplaceAll(s, i) == Interleave(kept, Blanks(|gaps|))
    ensures Find(s, i).None? ==> kinds == []
    ensures Find(s, i).Some? ==> kinds != [] && TagAt(s, Find(s, i).value.tag) == Some(kinds[0])
    decreases |s| - i
  {
    hide TagAt, IsPatternSpace, IsGap, HasTag, Blanks, Find;
    FindIsExact(s, i);
    match Find(s, i)
    case None =>
      SliceKeepsTagsOut(s, i, |s|);
      assert s[i..|s|] == s[i..];
      kept, gaps, kinds := [s[i..]], [], [];
      WholeIsSplit(s[i..]);
    case Some(m) =>
      var restKept, restGaps, restKinds := SplitOf(s, m.end);
      var kind := TagAt(s, m.tag).value;
      SliceKeepsTagsOut(s, i, m.start);
      MatchIsGap(s, m, kind);
      kept, gaps, kinds := [s[i..m.start]] + restKept, [s[m.start..m.end]] + restGaps, [kind] + restKinds;
      SplitGrows(s[i..m.start], s[m.start..m.end], kind, s[m.end..], restKept, restGaps, restKinds);
      BlanksGrow(s[i..m.start], restKept);
      ThreeParts(s, i, m.start, m.end);
  }

  lemma ThreeParts(s: string, a: nat, b: nat, c: nat)
    requires a <= b <= c <= |s|
    ensures s[a..] == s[a..b] + s[b..c] + s[c..]
  {
  }

  lemma BlanksGrow(piece: string, kept: seq<string>)
    requires kept != []
    ensures Interleave([piece] + kept, Blanks(|kept|)) == piece + " " + Interleave(kept, Blanks(|kept| - 1))
  {
    assert ([piece] + kept)[1..] == kept;
    assert Blanks(|kept|)[1..] == Blanks(|kept| - 1);
  }

  lemma WholeIsSplit(s: string)
    requires !HasTag(s)
    ensures IsSplit(s, [s], [], [])
  {
  }

  lemma SplitGrows(piece: string, gap: string, kind: Kind, rest: string, kept: seq<string>, gaps: seq<string>,
                   kinds: seq<Kind>)
    requires !HasTag(piece) && IsGap(gap, kind) && IsSplit(rest, kept, gaps, kinds)
    requires !EndsWithSpace(piece) && !StartsWithSpace(rest)
    ensures IsSplit(piece + gap + rest, [piece] + kept, [gap] + gaps, [kind] + kinds)
  {
    hide HasTag, IsGap, IsPatternSpace, EndsWithSpace;
    assert ([piece] + kept)[1..] == kept && ([gap] + gaps)[1..] == gaps;
    assert kept[0] <= rest;
  }

  lemma MatchIsGap(s: string, m: Match, kind: Kind)
    requires m.start <= m.tag && m.tag + TAG_LENGTH <= m.end <= |s| && TagAt(s, m.tag) == Some(kind)
    requires forall k :: m.start <= k < m.tag || m.tag + TAG_LENGTH <= k < m.end ==> IsPatternSpace(s[k])
    ensures IsGap(s[m.start..m.end], kind)
  {
    hide TagAt, IsPatternSpace;
    TagInSlice(s, m.start, m.end, m.tag - m.start);
    var gap, k := s[m.start..m.end], m.tag - m.start;
    forall i | 0 <= i < k
      ensures IsPatternSpace(gap[..k][i])
    {
      assert gap[..k][i] == s[m.start + i];
    }
    TagAtIsSpelling(gap, k, kind);
    var tail := gap[k + TAG_LENGTH..];
    forall i | 0 <= i < |tail|
      ensures IsPatternSpace(tail[i])
    {
      assert tail[i] == s[m.tag + TAG_LENGTH + i];
    }
    assert AllSpace(gap[..k]) && AllSpace(tail);
    assert gap == gap[..k] + gap[k..k + TAG_LENGTH] + tail;
  }

  // ---------------------------------------------------------------- trimming

  lemma NoText(s: string)
    requires s == ""
    ensures OnlySpace(s)
  {
  }

  lemma SpaceInFront(s: string, b: nat)
    requires s != "" && IsSpace(s[0]) && b < |s| && OnlySpace(s[1..][..b])
    ensures OnlySpace(s[..b + 1]) && s[1..][b..] == s[b + 1..]
  {
    hide IsSpace;
    assert s[..b + 1] == [s[0]] + s[1..][..b];
  }

  lemma SpaceBehind(s: string, b: nat)
    requires s != "" && IsSpace(s[|s| - 1]) && b < |s| && OnlySpace(s[..|s| - 1][b..])
    ensures OnlySpace(s[b..]) && s[..|s| - 1][..b] == s[..b]
  {
    hide IsSpace;
    assert s[b..] == s[..|s| - 1][b..] + [s[|s| - 1]];
  }

  lemma {:induction false} TrimLeftIsSuffix(s: string) returns (a: nat)
    ensures a <= |s| && TrimLeft(s) == s[a..] && OnlySpace(s[..a])
    ensures TrimLeft(s) != "" ==> !IsSpace(TrimLeft(s)[0])
  {
    hide IsSpace, OnlySpace;
    if s != "" && IsSpace(s[0]) {
      var b := TrimLeftIsSuffix(s[1..]);
      a := b + 1;
      SpaceInFront(s, b);
    } else {
      a := 0;
      NoText(s[..0]);
    }
  }

  lemma {:induction false} TrimRightIsPrefix(s: string) returns (b: nat)
    ensures b <= |s| && TrimRight(s) == s[..b] && OnlySpace(s[b..])
    ensures TrimRight(s) != "" ==> !IsSpace(TrimRight(s)[b - 1])
  {
    hide IsSpace, OnlySpace;
    if s != "" && IsSpace(s[|s| - 1]) {
      b := TrimRightIsPrefix(s[..|s| - 1]);
      SpaceBehind(s, b);
    } else {
      b := |s|;
      NoText(s[b..]);
    }
  }

  lemma TrimLeavesNoTag(s: string)
    requires !HasTag(s)
    ensures !HasTag(TrimSpace(s))
  {
    hide TagAt, IsSpace, HasTag;
    HasTagAt(s);
    var a := TrimLeftIsSuffix(s);
    var b := TrimRightIsPrefix(TrimLeft(s));
    assert TrimSpace(s) == s[a..a + b];
    SliceKeepsTagsOut(s, a, a + b);
  }

  /** TrimSpace takes all white space off both ends, and nothing else. */
  lemma TrimIsExact(s: string)
    ensures var t := TrimSpace(s);
            && (exists before, after :: s == before + t + after && OnlySpace(before) && OnlySpace(after))
            && (t != "" ==> !IsSpace(t[0]) && !IsSpace(t[|t| - 1]))
  {
    hide IsSpace;
    var a := TrimLeftIsSuffix(s);
    var rest := TrimLeft(s);
    var b := TrimRightIsPrefix(rest);
    assert s == s[..a] + rest[..b] + rest[b..];
  }

  ghost predicate OnlySpace(s: string) {
    forall i :: 0 <= i < |s| ==> IsSpace(s[i])
  }

  /** The prefix goes, if it is there, once. */
  lemma TrimPrefixIsExact(s: string, prefix: string)
    ensures TrimPrefix(prefix + s, prefix) == s
    ensures !(prefix <= s) ==> TrimPrefix(s, prefix) == s
  {
  }

  lemma TrimIsIdempotent(s: string)
    ensures TrimSpace(TrimSpace(s)) == TrimSpace(s)
  {
    hide IsSpace;
    var a := TrimLeftIsSuffix(s);
    var b := TrimRightIsPrefix(TrimLeft(s));
  }
}
