/**
 Why exactly-once ingestion asks for non-blank lines and at most 500 lines with one stamp: which logs can be stored more
 than once, over all runs.
 */
module IngestLimits {
  import opened Wrappers
  import opened LogIngest
  import opened IngestRuns

  function Blanks(lines: seq<Entry>): nat {
    if lines == [] then 0 else (if IsBlank(lines[0]) then 1 else 0) + Blanks(lines[1..])
  }

  /** No blank line is ever taken for a duplicate. */
  lemma {:induction false} BlanksAreAccepted(lines: seq<Entry>, cursor: Option<Stamp>, boundary: multiset<Entry>)
    ensures Blanks(Accepted(lines, cursor, boundary)) == Blanks(lines)
  {
    if lines != [] {
      var line, rest := lines[0], lines[1..];
      var left := if cursor.Some? && line in boundary && !IsBlank(line) && line.at == cursor.value
                  then boundary - multiset{line} else boundary;
      BlanksAreAccepted(rest, cursor, left);
      var more := Accepted(rest, cursor, left);
      assert ([line] + more)[1..] == more;
    }
  }

  lemma OccursInConcat(a: seq<Entry>, b: seq<Entry>, entry: Entry)
    ensures Occurs(a + b, entry) == Occurs(a, entry) + Occurs(b, entry)
  {
    OccursInMultiset(a, entry);
    OccursInMultiset(b, entry);
    OccursInMultiset(a + b, entry);
  }

  lemma {:induction false} BlanksAreStored(lines: seq<Entry>, now: Stamp)
    ensures Occurs(AllStored(lines, now), Entry(now, "")) == Blanks(lines)
  {
    if lines != [] {
      var first, rest := AllStored(lines[..1], now), lines[1..];
      BlanksAreStored(rest, now);
      assert lines == lines[..1] + rest;
      AllStoredConcat(lines[..1], rest, now);
      OccursInConcat(first, AllStored(rest, now), Entry(now, ""));
      assert first == [AsStored(lines[0], now)] && first[..0] == [];
    }
  }

  /** Every completed poll stores every blank line of its window once more, whatever was stored before. */
  lemma BlankLinesAreStoredAgain(store: Store, window: seq<Entry>, now: Stamp)
    ensures var again := store.Ingest(window, now, None).events;
            Occurs(again, Entry(now, "")) == Occurs(store.events, Entry(now, "")) + Blanks(window)
  {
    var accepted := Accepted(window, store.cursor, store.Boundary());
    BlanksAreAccepted(window, store.cursor, store.Boundary());
    BlanksAreStored(accepted, now);
    OccursInConcat(store.events, AllStored(accepted, now), Entry(now, ""));
    assert accepted[..|accepted|] == accepted;
  }

  /** A store that holds `group`, all the lines at its cursor, after older events. */
  ghost predicate CaughtUp(store: Store, older: seq<Entry>, group: seq<Entry>) {
    && group != [] && store.cursor == Some(group[0].at)
    && store.events == older + group
    && (forall i | 0 <= i < |older| :: older[i].at < group[0].at)
    && (forall i | 0 <= i < |group| :: group[i].at == group[0].at && !IsBlank(group[i]))
  }

  /** The boundary is the last 500 of the group, or all of it. */
  lemma BoundaryOfGroup(store: Store, older: seq<Entry>, group: seq<Entry>)
    requires CaughtUp(store, older, group)
    ensures store.Boundary() == multiset(Recent(group))
  {
    var at, events := group[0].at, store.events;
    if |group| <= BOUNDARY_SIZE {
      assert events[|older|..] == group;
      RecentHasThem(events, at, |older|);
    } else {
      assert Recent(events) == Recent(group);
      FromIsSuffix(Recent(group), at, 0);
    }
  }

  /** Polling again with nothing new stores exactly the lines at the cursor beyond the 500th a second time. */
  lemma RepollStoresTheExcess(store: Store, older: seq<Entry>, group: seq<Entry>, now: Stamp)
    requires CaughtUp(store, older, group)
    ensures var again := store.Ingest(group, now, None);
            && |again.events| == |store.events| + (if |group| > 500 then |group| - 500 else 0)
            && (again == store <==> |group| <= 500)
            && (forall event | event in again.events :: event in store.events || event in group)
  {
    BoundaryOfGroup(store, older, group);
    var cut := |group| - |Recent(group)|;
    assert group == group[..cut] + group[cut..] && Recent(group) == group[cut..];
    var left := Leftover(group, [], group[0].at, multiset(Recent(group)));
    assert group + [] == group && left + [] == left;
    assert |multiset(left)| == |multiset(group)| - |multiset(Recent(group))|;
    LeftIsNotBlank(group, left, multiset(Recent(group)));
    IngestOfGoodLines(store, group, left, now, None);
    assert left[..|left|] == left;
    LeftIsFromGroup(group, left, multiset(Recent(group)));
  }

  lemma LeftIsFromGroup(group: seq<Entry>, left: seq<Entry>, boundary: multiset<Entry>)
    requires multiset(left) + boundary == multiset(group)
    ensures forall line | line in left :: line in group
  {
    forall line | line in left
      ensures line in group
    {
      assert line in multiset(left) + boundary;
    }
  }

  lemma LeftIsNotBlank(group: seq<Entry>, left: seq<Entry>, boundary: multiset<Entry>)
    requires multiset(left) + boundary == multiset(group)
    requires forall i | 0 <= i < |group| :: !IsBlank(group[i])
    ensures forall i | 0 <= i < |left| :: !IsBlank(left[i])
  {
    forall i | 0 <= i < |left|
      ensures !IsBlank(left[i])
    {
      assert left[i] in multiset(left) + boundary;
      assert left[i] in group;
    }
  }

  // ---------------------------------------------------------------- blank lines, over runs

  lemma {:induction false} BlanksConcat(a: seq<Entry>, b: seq<Entry>)
    ensures Blanks(a + b) == Blanks(a) + Blanks(b)
  {
    if a == [] {
      assert a + b == b;
    } else {
      assert (a + b)[1..] == a[1..] + b;
      BlanksConcat(a[1..], b);
    }
  }

  lemma {:induction false} StoredBlanks(lines: seq<Entry>, now: Stamp)
    ensures Blanks(AllStored(lines, now)) == Blanks(lines)
  {
    if lines != [] {
      assert AllStored(lines, now)[1..] == AllStored(lines[1..], now);
      StoredBlanks(lines[1..], now);
    }
  }

  lemma {:induction false} NoBlanks(lines: seq<Entry>)
    ensures Blanks(lines) == 0 <==> forall i | 0 <= i < |lines| :: !IsBlank(lines[i])
  {
    if lines != [] {
      NoBlanks(lines[1..]);
      assert lines == [lines[0]] + lines[1..];
    }
  }

  /** A completed poll adds as many blank events as its window has blank lines. */
  lemma PollAddsBlanks(store: Store, window: seq<Entry>, now: Stamp)
    ensures Blanks(store.Ingest(window, now, None).events) == Blanks(store.events) + Blanks(window)
  {
    var accepted := Accepted(window, store.cursor, store.Boundary());
    BlanksAreAccepted(window, store.cursor, store.Boundary());
    StoredBlanks(accepted, now);
    BlanksConcat(store.events, AllStored(accepted, now));
    assert accepted[..|accepted|] == accepted;
  }

  /** The last stamp of sorted lines is not beyond any line that follows them. */
  lemma {:induction false} LastStampIsNotLater(lines: seq<Entry>, n: nat)
    requires Sorted(lines) && n < |lines|
    ensures LastStamp(lines[..n], None).Some? ==> LastStamp(lines[..n], None).value <= lines[n].at
  {
    if n > 0 {
      assert lines[..n][..n - 1] == lines[..n - 1];
      LastStampIsNotLater(lines, n - 1);
    }
  }

  /** After polling everything up to a last blank line, the window of the next poll still has that line. */
  lemma BlankStaysInWindow(log: seq<Entry>, now: Stamp, tail: nat)
    requires Sorted(log) && log != [] && IsBlank(log[|log| - 1]) && tail == |log|
    ensures var cursor := Store([], None).Ingest(log, now, None).cursor;
            Blanks(Window(log, cursor, tail)) > 0
  {
    var n, none := |log| - 1, Store([], None);
    EverythingWithoutCursor(log, none.Boundary());
    assert log[..|log|] == log && log[..n][..n] == log[..n];
    var cursor := LastStamp(log, None);
    assert none.Ingest(log, now, None).cursor == cursor == LastStamp(log[..n], None);
    LastStampIsNotLater(log, n);
    if cursor.Some? {
      assert From(log, cursor.value) == From(log[..n], cursor.value) + [log[n]];
      BlanksConcat(From(log[..n], cursor.value), [log[n]]);
    } else {
      assert log[|log| - tail..] == log;
      assert log == log[..n] + [log[n]];
      BlanksConcat(log[..n], [log[n]]);
    }
    assert Blanks([log[n]]) == 1;
  }

  // ---------------------------------------------------------------- which logs are safe

  /**
   No line that is not blank is stored more often than it occurs, and no more blank events than there are blank lines.
   */
  ghost predicate NoneTooOften(events: seq<Entry>, log: seq<Entry>) {
    && (forall entry | !IsBlank(entry) :: Occurs(events, entry) <= Occurs(log, entry))
    && Blanks(events) <= Blanks(log)
  }

  /** Whatever polls complete, fail or die while the log grows to this one, no line of it is stored too often. */
  ghost predicate IsSafe(log: seq<Entry>) {
    forall steps | Run(steps).log == log :: NoneTooOften(Run(steps).store.events, log)
  }

  lemma PollLater(steps: seq<Step>, log: seq<Entry>, before: Store, now: Stamp, tail: nat, after: Store)
    requires Run(steps) == World(log, before)
    requires after == before.Ingest(Window(log, before.cursor, tail), now, None)
    ensures Run(steps + [Poll(now, tail, None)]) == World(log, after)
  {
    assert (steps + [Poll(now, tail, None)])[..|steps|] == steps;
  }

  lemma GrowLater(steps: seq<Step>, log: seq<Entry>, store: Store, lines: seq<Entry>)
    requires Run(steps) == World(log, store)
    ensures Run(steps + [Grow(lines)]) == World(log + lines, store)
  {
    assert (steps + [Grow(lines)])[..|steps|] == steps;
  }

  lemma FirstGrowth(lines: seq<Entry>) returns (steps: seq<Step>)
    ensures Run(steps) == World(lines, Store([], None))
  {
    assert [] + lines == lines;
    GrowLater([], [], Store([], None), lines);
    steps := [] + [Grow(lines)];
  }

  /** The log grows to its first lines, two polls complete over the last `tail` of them, and the rest is logged. */
  lemma TwoPolls(seen: seq<Entry>, rest: seq<Entry>, tail: nat, now: Stamp, once: Store, twice: Store)
    returns (steps: seq<Step>)
    requires once == Store([], None).Ingest(Window(seen, None, tail), now, None)
    requires twice == once.Ingest(Window(seen, once.cursor, tail), now, None)
    ensures Run(steps) == World(seen + rest, twice)
  {
    var grown := FirstGrowth(seen);
    PollLater(grown, seen, Store([], None), now, tail, once);
    var polled := grown + [Poll(now, tail, None)];
    PollLater(polled, seen, once, now, tail, twice);
    GrowLater(polled + [Poll(now, tail, None)], seen, twice, rest);
    steps := polled + [Poll(now, tail, None)] + [Grow(rest)];
  }

  /** Two polls over lines that end with a blank one store more blank events than there are blank lines. */
  lemma BlankPolledTwice(seen: seq<Entry>) returns (once: Store, twice: Store)
    requires Sorted(seen) && seen != [] && IsBlank(seen[|seen| - 1])
    ensures once == Store([], None).Ingest(Window(seen, None, |seen|), 0, None)
    ensures twice == once.Ingest(Window(seen, once.cursor, |seen|), 0, None)
    ensures Blanks(twice.events) > Blanks(seen)
  {
    assert seen[|seen| - |seen|..] == seen;
    once := Store([], None).Ingest(seen, 0, None);
    var window := Window(seen, once.cursor, |seen|);
    twice := once.Ingest(window, 0, None);
    PollAddsBlanks(Store([], None), seen, 0);
    BlankStaysInWindow(seen, 0, |seen|);
    PollAddsBlanks(once, window, 0);
  }

  /** A blank line that is polled twice while it is the last one is stored twice. */
  lemma BlankIsUnsafe(log: seq<Entry>, i: nat)
    requires Sorted(log) && i < |log| && IsBlank(log[i]) && forall j | i < j < |log| :: !IsBlank(log[j])
    ensures exists steps :: Run(steps).log == log && Blanks(Run(steps).store.events) > Blanks(log)
  {
    var seen, rest := log[..i + 1], log[i + 1..];
    var once, twice := BlankPolledTwice(seen);
    var steps := TwoPolls(seen, rest, |seen|, 0, once, twice);
    BlanksOfStart(log, i + 1);
    assert Run(steps).log == log;
  }

  lemma BlanksOfStart(log: seq<Entry>, n: nat)
    requires n <= |log| && forall j | n <= j < |log| :: !IsBlank(log[j])
    ensures log[..n] + log[n..] == log && Blanks(log) == Blanks(log[..n])
  {
    assert log == log[..n] + log[n..];
    BlanksConcat(log[..n], log[n..]);
    NoBlanks(log[n..]);
  }

  lemma {:induction false} LastBlank(log: seq<Entry>) returns (i: nat)
    requires Blanks(log) > 0
    ensures i < |log| && IsBlank(log[i]) && forall j | i < j < |log| :: !IsBlank(log[j])
  {
    NoBlanks(log);
    var n := |log| - 1;
    if IsBlank(log[n]) {
      i := n;
    } else {
      assert log == log[..n] + [log[n]];
      BlanksConcat(log[..n], [log[n]]);
      i := LastBlank(log[..n]);
    }
  }

  /** Events that all come from one stamp's lines, and none of them too often, are no more than those lines. */
  lemma NoMoreThanTheGroup(log: seq<Entry>, at: Stamp, a: nat, b: nat, events: seq<Entry>)
    requires SplitsAt(log, at, a) && SplitsAt(log, at + 1, b) && a <= b
    requires forall event | event in events :: event in log[a..b] && !IsBlank(event)
    requires NoneTooOften(events, log)
    ensures |events| <= b - a
  {
    var group := log[a..b];
    forall entry
      ensures Occurs(events, entry) <= Occurs(group, entry)
    {
      OccursInMultiset(events, entry);
      if entry in events {
        OnlyInTheGroup(log, at, a, b, entry);
      }
    }
    WithinIsMultiset(events, group);
    SmallerMultiset(multiset(events), multiset(group));
  }

  lemma OnlyInTheGroup(log: seq<Entry>, at: Stamp, a: nat, b: nat, entry: Entry)
    requires SplitsAt(log, at, a) && SplitsAt(log, at + 1, b) && a <= b && entry in log[a..b]
    ensures Occurs(log, entry) == Occurs(log[a..b], entry)
  {
    assert entry.at == at;
    assert entry !in log[..a] && entry !in log[b..];
    assert log == log[..a] + log[a..b] + log[b..];
    OccursInConcat(log[..a] + log[a..b], log[b..], entry);
    OccursInConcat(log[..a], log[a..b], entry);
    OccursInMultiset(log[..a], entry);
    OccursInMultiset(log[b..], entry);
  }

  /** With the log ending after one stamp's lines, both polls see exactly these lines. */
  lemma WindowsOfGroup(log: seq<Entry>, at: Stamp, a: nat, b: nat)
    requires SplitsAt(log, at, a) && SplitsAt(log, at + 1, b) && a <= b
    ensures Window(log[..b], None, b - a) == log[a..b] == Window(log[..b], Some(at), b - a)
  {
    assert log[..b][a..] == log[a..b];
    FromIsSuffix(log[..b], at, a);
  }

  /** Polled twice, more than 500 lines with one stamp leave more events than lines. */
  lemma GroupPolledTwice(group: seq<Entry>, at: Stamp) returns (once: Store, twice: Store)
    requires |group| > BOUNDARY_SIZE && forall i | 0 <= i < |group| :: group[i].at == at && !IsBlank(group[i])
    ensures once == Store([], None).Ingest(group, 0, None) && once.cursor == Some(at)
    ensures twice == once.Ingest(group, 0, None)
    ensures |twice.events| > |group| && forall event | event in twice.events :: event in group && !IsBlank(event)
  {
    FirstOfGroup(group, at);
    once := Store(group, Some(at));
    assert once.events == [] + group;
    RepollStoresTheExcess(once, [], group, 0);
    twice := once.Ingest(group, 0, None);
  }

  /** Over 500 lines with one stamp, all of them stored by one poll, are stored again in part by the next. */
  lemma BigGroupIsUnsafe(log: seq<Entry>, at: Stamp, a: nat, b: nat) returns (steps: seq<Step>)
    requires SplitsAt(log, at, a) && SplitsAt(log, at + 1, b) && b - a > BOUNDARY_SIZE
    requires forall i | 0 <= i < |log| :: !IsBlank(log[i])
    ensures Run(steps).log == log && !NoneTooOften(Run(steps).store.events, log)
  {
    var once, twice := GroupPolledTwice(log[a..b], at);
    WindowsOfGroup(log, at, a, b);
    steps := TwoPolls(log[..b], log[b..], b - a, 0, once, twice);
    assert log[..b] + log[b..] == log;
    TooManyOfTheGroup(log, at, a, b, twice.events);
  }

  lemma TooManyOfTheGroup(log: seq<Entry>, at: Stamp, a: nat, b: nat, events: seq<Entry>)
    requires SplitsAt(log, at, a) && SplitsAt(log, at + 1, b) && a <= b && |events| > b - a
    requires forall event | event in events :: event in log[a..b] && !IsBlank(event)
    ensures !NoneTooOften(events, log)
  {
    if NoneTooOften(events, log) {
      NoMoreThanTheGroup(log, at, a, b, events);
    }
  }

  lemma FirstOfGroup(group: seq<Entry>, at: Stamp)
    requires group != [] && forall i | 0 <= i < |group| :: group[i].at == at && !IsBlank(group[i])
    ensures Store([], None).Ingest(group, 0, None) == Store(group, Some(at))
  {
    IngestWithoutCursor(group, 0, None);
    assert group[..|group|] == group;
  }

  lemma SafeWhenGood(log: seq<Entry>)
    requires GoodLog(log)
    ensures IsSafe(log)
  {
    forall steps | Run(steps).log == log
      ensures NoneTooOften(Run(steps).store.events, log)
    {
      NothingStoredTwice(steps);
      StoredIsWithin(Run(steps).store.events, log);
    }
  }

  lemma StoredIsWithin(events: seq<Entry>, log: seq<Entry>)
    requires multiset(events) <= multiset(log) && forall i | 0 <= i < |log| :: !IsBlank(log[i])
    ensures NoneTooOften(events, log)
  {
    WithinIsMultiset(events, log);
    forall i | 0 <= i < |events|
      ensures !IsBlank(events[i])
    {
      assert events[i] in multiset(events);
      assert events[i] in log;
    }
    NoBlanks(events);
  }

  /** 501 lines from the first to the last of them with one stamp. */
  lemma GroupOf(log: seq<Entry>, i: nat, j: nat) returns (a: nat, b: nat)
    requires Sorted(log) && i < j < |log| && log[i].at == log[j].at
    ensures SplitsAt(log, log[i].at, a) && SplitsAt(log, log[i].at + 1, b) && a <= i && j < b
  {
    a := Split(log, log[i].at);
    b := Split(log, log[i].at + 1);
  }

  /**
   Exactly which sorted logs are stored without repetition by every run over them: those without blank lines in which no
   501 lines share a stamp.
   */
  lemma SafeExactly(log: seq<Entry>)
    requires Sorted(log)
    ensures IsSafe(log) <==> GoodLog(log)
  {
    if GoodLog(log) {
      SafeWhenGood(log);
    } else if Blanks(log) > 0 {
      var i := LastBlank(log);
      BlankIsUnsafe(log, i);
    } else {
      NoBlanks(log);
      var i, j :| 0 <= i < j < |log| && j - i >= BOUNDARY_SIZE && log[i].at >= log[j].at;
      var a, b := GroupOf(log, i, j);
      var steps := BigGroupIsUnsafe(log, log[i].at, a, b);
    }
  }
}
