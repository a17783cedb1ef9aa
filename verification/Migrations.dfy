/**
 The index migrations: apply a file to the cluster, then record its name, and on the next start go on behind the
 recorded name. Each step can fail or the process can die, before or after the step has taken effect, any number of
 times.
 */
module Migrations {
  import opened GoText
  import Sorting

  // ---------------------------------------------------------------- Go's string order

  predicate Less(a: Text, b: Text) {
    if b == [] then false
    else if a == [] then true
    else a[0] < b[0] || (a[0] == b[0] && Less(a[1..], b[1..]))
  }

  predicate AtMost(a: Text, b: Text) {
    a == b || Less(a, b)
  }

  lemma {:induction false} LessIsTransitive(a: Text, b: Text, c: Text)
    requires Less(a, b) && Less(b, c)
    ensures Less(a, c)
  {
    if a != [] && a[0] == b[0] && b[0] == c[0] {
      LessIsTransitive(a[1..], b[1..], c[1..]);
    }
  }

  /** The order compares at the first byte in which two names differ; a name that ends there comes first. */
  lemma {:induction false} LessIsLexicographic(a: Text, b: Text, common: Text, a': Text, b': Text)
    requires a == common + a' && b == common + b' && (a' != [] && b' != [] ==> a'[0] != b'[0])
    ensures Less(a, b) <==> b' != [] && (a' == [] || a'[0] < b'[0])
  {
    if common == [] {
      assert a == a' && b == b';
    } else {
      assert a[1..] == common[1..] + a' && b[1..] == common[1..] + b';
      LessIsLexicographic(a[1..], b[1..], common[1..], a', b');
    }
  }

  lemma {:induction false} LessIsIrreflexive(a: Text)
    ensures !Less(a, a)
  {
    if a != [] {
      LessIsIrreflexive(a[1..]);
    }
  }

  // ---------------------------------------------------------------- one run

  datatype Entry = Entry(name: Text, isDir: bool)

  /** log: the migrations the cluster executed, in order; recorded: the name in the history document, empty if none. */
  datatype State = State(log: seq<Text>, recorded: Text)

  /**
   How far one migration gets: it fails, or the process dies, before the cluster executed it; after that but before the
   name was recorded; after the name was recorded but before this was known; or it goes through.
   */
  datatype Fate = NotExecuted | NotRecorded | RecordedThenStopped | GoesThrough

  datatype Outcome = Success | Stopped

  function Fated(fates: seq<Fate>, i: nat): Fate {
    if i < |fates| then fates[i] else GoesThrough
  }

  function Apply(s: State, name: Text, fate: Fate): State {
    match fate
    case NotExecuted => s
    case NotRecorded => s.(log := s.log + [name])
    case _ => State(s.log + [name], name)
  }

  /** Directories and names not beyond the last recorded one are passed over. */
  predicate Skipped(e: Entry, last: Text) {
    e.isDir || AtMost(e.name, last)
  }

  function RunFrom(s: State, entries: seq<Entry>, i: nat, last: Text, fates: seq<Fate>): (State, Outcome)
    decreases |entries| - i
  {
    if i >= |entries| then (s, Success)
    else if Skipped(entries[i], last) then RunFrom(s, entries, i + 1, last, fates)
    else
      var t := Apply(s, entries[i].name, Fated(fates, i));
      if Fated(fates, i).GoesThrough? then RunFrom(t, entries, i + 1, last, fates) else (t, Stopped)
  }

  /** readable: the history index and document could be read at the start. */
  function Run(s: State, entries: seq<Entry>, readable: bool, fates: seq<Fate>): (State, Outcome) {
    if !readable then (s, Stopped) else RunFrom(s, entries, 0, s.recorded, fates)
  }

  class ElasticMigrator {
    var log: seq<Text>
    var recorded: Text

    function View(): State
      reads this
    {
      State(log, recorded)
    }

    constructor ()
      ensures View() == State([], [])
    {
      log, recorded := [], [];
    }

    /** One migration file: executed first, recorded second. */
    method ApplyEntry(name: Text, fate: Fate) returns (ok: bool)
      modifies this
      ensures View() == Apply(old(View()), name, fate) && ok == fate.GoesThrough?
    {
      if fate.NotExecuted? {
        return false;
      }
      log := log + [name];
      if fate.NotRecorded? {
        return false;
      }
      recorded := name;
      ok := fate.GoesThrough?;
    }

    method Migrate(entries: seq<Entry>, readable: bool, fates: seq<Fate>) returns (outcome: Outcome)
      modifies this
      ensures (View(), outcome) == Run(old(View()), entries, readable, fates)
    {
      if !readable {
        return Stopped;
      }
      var lastMigration := recorded;
      for i := 0 to |entries|
        invariant Run(old(View()), entries, readable, fates) == RunFrom(View(), entries, i, lastMigration, fates)
      {
        if entries[i].isDir {
          continue;
        }
        if AtMost(entries[i].name, lastMigration) {
          continue;
        }
        var ok := ApplyEntry(entries[i].name, Fated(fates, i));
        if !ok {
          return Stopped;
        }
      }
      outcome := Success;
    }
  }

  // ---------------------------------------------------------------- the directory

  /** The migration files of a directory, directories left out. */
  function Files(entries: seq<Entry>): seq<Text> {
    if entries == [] then []
    else (if entries[0].isDir then [] else [entries[0].name]) + Files(entries[1..])
  }

  /** A directory is read in the order of its names, which are distinct and not empty. */
  predicate Ordered(names: seq<Text>) {
    && (forall i, j :: 0 <= i < j < |names| ==> Less(names[i], names[j]))
    && (forall i :: 0 <= i < |names| ==> names[i] != [])
  }

  /** The name recorded when the first r migrations are done. */
  function NameAt(all: seq<Text>, r: nat): Text
    requires r <= |all|
  {
    if r == 0 then [] else all[r - 1]
  }

  lemma NameOrder(all: seq<Text>, i: nat, r: nat)
    requires Ordered(all) && i < |all| && r <= |all|
    ensures AtMost(all[i], NameAt(all, r)) <==> i < r
  {
    if r > 0 {
      if i < r - 1 {
        assert Less(all[i], all[r - 1]);
      } else if i > r - 1 {
        assert Less(all[r - 1], all[i]);
        if Less(all[i], all[r - 1]) {
          LessIsTransitive(all[i], all[r - 1], all[i]);
        }
        LessIsIrreflexive(all[i]);
      }
    }
  }

  // ---------------------------------------------------------------- invariant

  /** One of the first r migrations, or the one after them. */
  ghost predicate IsAmong(all: seq<Text>, r: nat, name: Text) {
    exists k :: 0 <= k < |all| && k <= r && name == all[k]
  }

  /**
   r migrations are recorded: all of them were executed, in order; the next may have been executed too, any
   number of times; nothing else was; and every repetition is an execution whose record was lost.
   */
  ghost predicate Progress(all: seq<Text>, s: State, r: nat, lost: nat) {
    && r <= |all| && s.recorded == NameAt(all, r)
    && (forall i :: 0 <= i < |s.log| ==> IsAmong(all, r, s.log[i]))
    && (forall i, j :: 0 <= i < j < |s.log| ==> AtMost(s.log[i], s.log[j]))
    && (forall k :: 0 <= k < r ==> all[k] in s.log)
    && |s.log| == r + lost
  }

  lemma LogGrows(all: seq<Text>, s: State, r: nat, lost: nat)
    requires Ordered(all) && Progress(all, s, r, lost) && r < |all|
    ensures Progress(all, State(s.log + [all[r]], s.recorded), r, lost + 1)
    ensures Progress(all, State(s.log + [all[r]], all[r]), r + 1, lost)
  {
    var log := s.log + [all[r]];
    forall i, j | 0 <= i < j < |log|
      ensures AtMost(log[i], log[j])
    {
      if j == |s.log| {
        var k :| 0 <= k < |all| && k <= r && s.log[i] == all[k];
        assert k == r || Less(all[k], all[r]);
      }
    }
    forall i | 0 <= i < |log|
      ensures IsAmong(all, r, log[i]) && IsAmong(all, r + 1, log[i])
    {
      if i < |s.log| {
        var k :| 0 <= k < |all| && k <= r && s.log[i] == all[k];
        assert k <= r + 1;
      }
    }
  }

  function LostBy(fate: Fate): nat {
    if fate.NotRecorded? then 1 else 0
  }

  /** The migrations of a run whose record got lost; a run loses at most one, its last. */
  function LostFrom(s: State, entries: seq<Entry>, i: nat, last: Text, fates: seq<Fate>): (lost: nat)
    ensures lost <= 1
    decreases |entries| - i
  {
    if i >= |entries| then 0
    else if Skipped(entries[i], last) then LostFrom(s, entries, i + 1, last, fates)
    else if Fated(fates, i).GoesThrough?
    then LostFrom(Apply(s, entries[i].name, GoesThrough), entries, i + 1, last, fates)
    else LostBy(Fated(fates, i))
  }

  /** How many files the directory holds in all, if n come before position i. */
  function FilesFrom(entries: seq<Entry>, i: nat, n: nat): nat
    requires i <= |entries|
  {
    n + |Files(entries[i..])|
  }

  /** The files from position i on are the migrations from number n on. */
  predicate Matches(all: seq<Text>, entries: seq<Entry>, i: nat, n: nat) {
    && i <= |entries| && FilesFrom(entries, i, n) <= |all|
    && Files(entries[i..]) == all[n..FilesFrom(entries, i, n)]
  }

  lemma MatchesNext(all: seq<Text>, entries: seq<Entry>, i: nat, n: nat)
    requires Matches(all, entries, i, n)
    ensures i <= |entries| && n <= FilesFrom(entries, i, n) <= |all|
    ensures i == |entries| ==> FilesFrom(entries, i, n) == n
    ensures i < |entries| ==>
              var next := if entries[i].isDir then n else n + 1;
              && Matches(all, entries, i + 1, next) && FilesFrom(entries, i + 1, next) == FilesFrom(entries, i, n)
              && (!entries[i].isDir ==> n < |all| && n < FilesFrom(entries, i, n) && entries[i].name == all[n])
  {
    if i < |entries| {
      assert entries[i..][0] == entries[i] && entries[i..][1..] == entries[i + 1..];
      var files := Files(entries[i..]);
      if !entries[i].isDir {
        assert files == [entries[i].name] + Files(entries[i + 1..]);
        assert files[0] == all[n];
        assert Files(entries[i + 1..]) == files[1..] == all[n + 1..n + |files|];
      }
    }
  }

  /** n counts the files before position i. */
  lemma {:induction false} RunFromKeepsProgress(all: seq<Text>, s: State, entries: seq<Entry>, i: nat, start: nat,
                                                fates: seq<Fate>, n: nat, r: nat, lost: nat) returns (r': nat)
    requires Ordered(all) && Progress(all, s, r, lost)
    requires Matches(all, entries, i, n)
    requires start <= |all| && r == (if n < start then start else n)
    ensures var (t, outcome) := RunFrom(s, entries, i, NameAt(all, start), fates);
            var more := LostFrom(s, entries, i, NameAt(all, start), fates);
            && r <= r' && Progress(all, t, r', lost + more)
            && Executed(all, s.log, t.log, r, r', more)
            && (outcome.Success? ==> r' >= FilesFrom(entries, i, n))
            && (r >= FilesFrom(entries, i, n) ==> t == s && outcome.Success?)
    decreases |entries| - i
  {
    hide Progress, AtMost, NameAt, Ordered, Files, FilesFrom, Matches;
    r' := r;
    BoundOfProgress(all, s, r, lost);
    MatchesNext(all, entries, i, n);
    assert s.log + all[r..r] == s.log;
    if i < |entries| {
      var e := entries[i];
      if e.isDir {
        r' := RunFromKeepsProgress(all, s, entries, i + 1, start, fates, n, r, lost);
      } else {
        NameOrder(all, n, start);
        if n < start {
          r' := RunFromKeepsProgress(all, s, entries, i + 1, start, fates, n + 1, r, lost);
        } else {
          LogGrows(all, s, r, lost);
          if Fated(fates, i).GoesThrough? {
            var t := Apply(s, e.name, GoesThrough);
            r' := RunFromKeepsProgress(all, t, entries, i + 1, start, fates, n + 1, r + 1, lost);
            assert s.log + [all[r]] + all[r + 1..r'] == s.log + all[r..r'];
          } else if Fated(fates, i).RecordedThenStopped? {
            r' := r + 1;
            assert all[r..r + 1] == [all[r]];
          }
        }
      }
    }
  }

  lemma BoundOfProgress(all: seq<Text>, s: State, r: nat, lost: nat)
    requires Progress(all, s, r, lost)
    ensures r <= |all|
  {
  }

  /** What a run executed: the migrations from r up to r', and, if a record got lost, the one after them. */
  predicate Executed(all: seq<Text>, before: seq<Text>, after: seq<Text>, r: nat, r': nat, lost: nat) {
    && r <= r' <= |all| && (lost > 0 ==> r' < |all|)
    && after == before + all[r..r'] + (if lost > 0 then [all[r']] else [])
  }

  // ---------------------------------------------------------------- any number of runs

  /**
   One start of the service: its directory holds the first migrations of all, maybe fewer than an earlier release's.
   */
  datatype Attempt = Attempt(entries: seq<Entry>, readable: bool, fates: seq<Fate>)

  predicate FromRelease(all: seq<Text>, entries: seq<Entry>) {
    |Files(entries)| <= |all| && Files(entries) == all[..|Files(entries)|]
  }

  ghost predicate IsHistory(all: seq<Text>, attempts: seq<Attempt>, states: seq<State>) {
    && |states| == |attempts| + 1 && states[0] == State([], [])
    && forall i :: 0 <= i < |attempts| ==>
         FromRelease(all, attempts[i].entries)
         && states[i + 1] == Run(states[i], attempts[i].entries, attempts[i].readable, attempts[i].fates).0
  }

  function Lost(s: State, a: Attempt): nat {
    if a.readable then LostFrom(s, a.entries, 0, s.recorded, a.fates) else 0
  }

  function LostSoFar(attempts: seq<Attempt>, states: seq<State>, at: nat): nat
    requires at <= |attempts| <= |states|
  {
    if at == 0 then 0 else LostSoFar(attempts, states, at - 1) + Lost(states[at - 1], attempts[at - 1])
  }

  /**
   One start, from any state a history can reach: it executes the migration after the recorded name, then the ones after
   that, in order, and nothing else; only its last execution can remain unrecorded.
   */
  lemma RunKeepsProgress(all: seq<Text>, s: State, a: Attempt, r: nat, lost: nat) returns (r': nat)
    requires Ordered(all) && Progress(all, s, r, lost) && FromRelease(all, a.entries)
    ensures var (t, outcome) := Run(s, a.entries, a.readable, a.fates);
            && r <= r' && Progress(all, t, r', lost + Lost(s, a))
            && Executed(all, s.log, t.log, r, r', Lost(s, a))
            && (outcome.Success? ==> r' >= |Files(a.entries)|)
            && (a.readable && r >= |Files(a.entries)| ==> t == s && outcome.Success?)
  {
    r' := r;
    assert s.log + all[r..r] == s.log;
    if a.readable {
      assert a.entries[0..] == a.entries;
      r' := RunFromKeepsProgress(all, s, a.entries, 0, r, a.fates, 0, r, lost);
    }
  }

  /**
   After any number of starts, each ended by success, failure or a crash anywhere: the log never goes back in name
   order, everything up to the recorded name was executed, nothing beyond the one after it, and the log is exactly one
   execution of each recorded migration plus one for every execution whose record was lost.
   */
  lemma {:induction false} HistoryKeepsProgress(all: seq<Text>, attempts: seq<Attempt>, states: seq<State>, at: nat)
    returns (r: nat)
    requires Ordered(all) && IsHistory(all, attempts, states) && at <= |attempts|
    ensures Progress(all, states[at], r, LostSoFar(attempts, states, at))
  {
    hide Progress, Run, FromRelease;
    if at == 0 {
      r := 0;
      NothingDone(all);
    } else {
      r := HistoryKeepsProgress(all, attempts, states, at - 1);
      r := RunKeepsProgress(all, states[at - 1], attempts[at - 1], r, LostSoFar(attempts, states, at - 1));
    }
  }

  lemma NothingDone(all: seq<Text>)
    ensures Progress(all, State([], []), 0, 0)
  {
  }

  /** After a successful start, another start of the same release executes nothing and succeeds. */
  lemma SecondRunIsIdle(all: seq<Text>, attempts: seq<Attempt>, states: seq<State>, a: Attempt, again: Attempt)
    requires Ordered(all) && IsHistory(all, attempts, states) && FromRelease(all, a.entries)
    requires again.entries == a.entries && again.readable
    requires Run(states[|attempts|], a.entries, a.readable, a.fates).1.Success?
    ensures var t := Run(states[|attempts|], a.entries, a.readable, a.fates).0;
            Run(t, again.entries, again.readable, again.fates) == (t, Success)
  {
    hide Progress, Run, FromRelease;
    var last := states[|attempts|];
    var r := HistoryKeepsProgress(all, attempts, states, |attempts|);
    var lost := LostSoFar(attempts, states, |attempts|);
    var t := Run(last, a.entries, a.readable, a.fates).0;
    var r' := RunKeepsProgress(all, last, a, r, lost);
    var r'' := RunKeepsProgress(all, t, again, r', lost + Lost(last, a));
  }

  /** Each migration was executed exactly once exactly when no record was ever lost. */
  lemma ExactlyOnceIffNothingLost(all: seq<Text>, attempts: seq<Attempt>, states: seq<State>)
    requires Ordered(all) && IsHistory(all, attempts, states)
    ensures var log := states[|attempts|].log;
            (exists r :: 0 <= r <= |all| && states[|attempts|].recorded == NameAt(all, r) && log == all[..r])
            <==> LostSoFar(attempts, states, |attempts|) == 0
  {
    var r := HistoryKeepsProgress(all, attempts, states, |attempts|);
    var s := states[|attempts|];
    if LostSoFar(attempts, states, |attempts|) == 0 {
      LogIsPrefix(all, s, r);
    }
    if r': nat :| r' <= |all| && s.recorded == NameAt(all, r') && s.log == all[..r'] {
      NamesDiffer(all, r, r');
    }
  }

  lemma NamesDiffer(all: seq<Text>, r: nat, r': nat)
    requires Ordered(all) && r <= |all| && r' <= |all| && NameAt(all, r) == NameAt(all, r')
    ensures r == r'
  {
    if r < r' {
      NameOrder(all, r' - 1, r);
    } else if r' < r {
      NameOrder(all, r - 1, r');
    }
  }

  /** r names in order that contain the first r migrations are the first r migrations. */
  lemma LogIsPrefix(all: seq<Text>, s: State, r: nat)
    requires Ordered(all) && Progress(all, s, r, 0)
    ensures s.log == all[..r]
  {
    DistinctCover(all[..r], s.log);
    SortedSame(all[..r], s.log);
  }

  /** A list no longer than the distinct names it contains is a permutation of them. */
  lemma {:induction false} DistinctCover(names: seq<Text>, log: seq<Text>)
    requires Ordered(names) && |log| == |names| && forall k :: 0 <= k < |names| ==> names[k] in log
    ensures multiset(log) == multiset(names)
    decreases |names|
  {
    if names != [] {
      var i :| 0 <= i < |log| && log[i] == names[0];
      var rest := log[..i] + log[i + 1..];
      assert log == log[..i] + [log[i]] + log[i + 1..];
      forall k | 0 <= k < |names[1..]|
        ensures names[1..][k] in rest
      {
        LessIsIrreflexive(names[0]);
        assert names[k + 1] in log && names[k + 1] != names[0];
        var j :| 0 <= j < |log| && log[j] == names[k + 1];
        assert if j < i then rest[j] == log[j] else rest[j - 1] == log[j];
      }
      DistinctCover(names[1..], rest);
      assert names == [names[0]] + names[1..];
      assert multiset(log) == multiset(rest) + multiset{log[i]};
    } else {
      assert log == [];
    }
  }

  lemma SmallestFirst(names: seq<Text>, log: seq<Text>)
    requires Ordered(names) && multiset(log) == multiset(names) && names != []
    requires forall i, j :: 0 <= i < j < |log| ==> AtMost(log[i], log[j])
    ensures log != [] && log[0] == names[0]
  {
    hide Less;
    assert |multiset(log)| == |log| && |multiset(names)| == |names|;
    assert log[0] in multiset(names) && names[0] in multiset(log);
    var i :| 0 <= i < |names| && names[i] == log[0];
    var j :| 0 <= j < |log| && log[j] == names[0];
    if i > 0 {
      if j > 0 && Less(log[0], log[j]) {
        LessIsTransitive(names[0], names[i], names[0]);
      }
      LessIsIrreflexive(names[0]);
    }
  }

  lemma {:induction false} SortedSame(names: seq<Text>, log: seq<Text>)
    requires Ordered(names) && multiset(log) == multiset(names)
    requires forall i, j :: 0 <= i < j < |log| ==> AtMost(log[i], log[j])
    ensures log == names
    decreases |names|
  {
    if names == [] {
      assert |multiset(log)| == 0;
    } else {
      SmallestFirst(names, log);
      Sorting.HeadMultiset(names);
      Sorting.HeadMultiset(log);
      OrderedTail(names);
      hide Less, AtMost, Ordered;
      SortedSame(names[1..], log[1..]);
    }
  }

  lemma OrderedTail(names: seq<Text>)
    requires Ordered(names) && names != []
    ensures Ordered(names[1..])
  {
    hide Less;
  }

  // ---------------------------------------------------------------- releases that add files anywhere

  /** The files a start that gets through executes: those named beyond the recorded name. */
  function Beyond(entries: seq<Entry>, last: Text): seq<Text> {
    if entries == [] then []
    else (if Skipped(entries[0], last) then [] else [entries[0].name]) + Beyond(entries[1..], last)
  }

  /**
   For any directory and any state: a start that succeeds has executed exactly the files beyond the recorded name, in
   order.
   */
  lemma {:induction false} SuccessExecutesBeyond(s: State, entries: seq<Entry>, i: nat, last: Text, fates: seq<Fate>)
    requires i <= |entries| && RunFrom(s, entries, i, last, fates).1.Success?
    ensures RunFrom(s, entries, i, last, fates).0.log == s.log + Beyond(entries[i..], last)
    decreases |entries| - i
  {
    hide Skipped;
    if i == |entries| {
      assert s.log + [] == s.log;
    } else {
      assert entries[i..][0] == entries[i] && entries[i..][1..] == entries[i + 1..];
      if Skipped(entries[i], last) {
        SuccessExecutesBeyond(s, entries, i + 1, last, fates);
      } else {
        var t := Apply(s, entries[i].name, GoesThrough);
        SuccessExecutesBeyond(t, entries, i + 1, last, fates);
        assert s.log + [entries[i].name] + Beyond(entries[i + 1..], last)
               == s.log + ([entries[i].name] + Beyond(entries[i + 1..], last));
      }
    }
  }

  /**
   For any directory and any state: a start succeeds exactly if the record can be read and every migration beyond the
   recorded name goes through.
   */
  lemma SuccessIff(s: State, entries: seq<Entry>, readable: bool, fates: seq<Fate>)
    ensures Run(s, entries, readable, fates).1.Success?
       <==> readable && forall k :: 0 <= k < |entries| && !entries[k].isDir && !AtMost(entries[k].name, s.recorded) ==>
                          Fated(fates, k).GoesThrough?
  {
    if readable {
      SuccessFromIff(s, entries, 0, s.recorded, fates);
    }
  }

  lemma {:induction false} SuccessFromIff(s: State, entries: seq<Entry>, i: nat, last: Text, fates: seq<Fate>)
    requires i <= |entries|
    ensures RunFrom(s, entries, i, last, fates).1.Success?
       <==> forall k :: i <= k < |entries| && !entries[k].isDir && !AtMost(entries[k].name, last) ==>
              Fated(fates, k).GoesThrough?
    decreases |entries| - i
  {
    hide AtMost;
    if i < |entries| {
      if Skipped(entries[i], last) {
        SuccessFromIff(s, entries, i + 1, last, fates);
      } else if Fated(fates, i).GoesThrough? {
        SuccessFromIff(Apply(s, entries[i].name, GoesThrough), entries, i + 1, last, fates);
      }
    }
  }

  lemma {:induction false} BeyondMembers(entries: seq<Entry>, last: Text, name: Text)
    ensures name in Beyond(entries, last) <==> name in Files(entries) && !AtMost(name, last)
  {
    hide AtMost;
    if entries != [] {
      BeyondMembers(entries[1..], last, name);
    }
  }

  /**
   For any directory, one with files named before the recorded name included, and any state: after a start that succeeds
   every file was executed exactly when those up to the recorded name had been executed before. Files beyond it are
   never missed; earlier ones that are new are passed over without an error.
   */
  lemma SuccessAppliesDirectoryIff(s: State, entries: seq<Entry>, fates: seq<Fate>)
    requires Run(s, entries, true, fates).1.Success?
    ensures var t := Run(s, entries, true, fates).0;
            (forall name :: name in Files(entries) ==> name in t.log)
            <==> (forall name :: name in Files(entries) && AtMost(name, s.recorded) ==> name in s.log)
  {
    hide AtMost, Files, Beyond;
    assert entries[0..] == entries;
    SuccessExecutesBeyond(s, entries, 0, s.recorded, fates);
    forall name
      ensures name in Beyond(entries, s.recorded) <==> name in Files(entries) && !AtMost(name, s.recorded)
    {
      BeyondMembers(entries, s.recorded, name);
    }
  }

  /** A release with the file "b", then one that adds "a": both starts succeed, and "a" was never executed. */
  lemma LateFileIsSkipped()
    ensures var one := Run(State([], []), [Entry(Ascii("b"), false)], true, []);
            var two := Run(one.0, [Entry(Ascii("a"), false), Entry(Ascii("b"), false)], true, []);
            one.1.Success? && two.1.Success? && Ascii("a") !in two.0.log
  {
    var a, b := Ascii("a"), Ascii("b");
    assert a == [97] && b == [98];
    var first := [Entry(b, false)];
    var second := [Entry(a, false), Entry(b, false)];
    assert [] + [b] == [b];
    assert RunFrom(State([b], b), first, 1, [], []) == (State([b], b), Success);
    assert Apply(State([], []), b, GoesThrough) == State([b], b);
    assert RunFrom(State([], []), first, 0, [], []) == (State([b], b), Success);
    assert Skipped(second[0], b) && Skipped(second[1], b);
    assert RunFrom(State([b], b), second, 2, b, []) == (State([b], b), Success);
    assert RunFrom(State([b], b), second, 1, b, []) == (State([b], b), Success);
  }
}
