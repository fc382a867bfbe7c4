/**
 Incremental log ingestion for one service (dockfleet/health/log_ingestor.py, `_ingest_single_service_logs`): an
 inclusive cursor, duplicates at the cursor's time stamp removed by multiset, and commits of 1000 events.

 Time stamps are integers of one resolution. A Docker line is its stamp and its message with trailing white space
 removed; a line whose message is blank has no space left, so its stamp is not recognised and it is stored as if it had
 been written when it was read (its text, the stamp, is not kept here).
 */
module LogIngest {
  import opened Wrappers

  type Stamp = int

  datatype Entry = Entry(at: Stamp, message: string)

  const BATCH_SIZE: nat := 1000
  const BOUNDARY_SIZE: nat := 500

  predicate IsBlank(line: Entry) {
    line.message == ""
  }

  function AsStored(line: Entry, now: Stamp): Entry {
    if IsBlank(line) then Entry(now, "") else line
  }

  function AllStored(lines: seq<Entry>, now: Stamp): seq<Entry> {
    seq(|lines|, i requires 0 <= i < |lines| => AsStored(lines[i], now))
  }

  /** The entries at or after a stamp, in order. */
  function From(entries: seq<Entry>, at: Stamp): seq<Entry> {
    if entries == [] then []
    else
      var last := entries[|entries| - 1];
      From(entries[..|entries| - 1], at) + if last.at >= at then [last] else []
  }

  function Recent(events: seq<Entry>): seq<Entry> {
    if |events| <= BOUNDARY_SIZE then events else events[|events| - BOUNDARY_SIZE..]
  }

  function Min(a: nat, b: nat): nat {
    if a <= b then a else b
  }

  /** How many events full batches hold. */
  function Committed(batches: nat): nat {
    BATCH_SIZE * batches
  }

  // ---------------------------------------------------------------- one poll

  /** The lines that are not dropped as duplicates of the stored events at the cursor. */
  function Accepted(lines: seq<Entry>, cursor: Option<Stamp>, boundary: multiset<Entry>): seq<Entry> {
    if lines == [] then []
    else
      var line, rest := lines[0], lines[1..];
      if cursor.None? || IsBlank(line) || line.at > cursor.value then [line] + Accepted(rest, cursor, boundary)
      else if line.at < cursor.value then Accepted(rest, cursor, boundary)
      else if line in boundary then Accepted(rest, cursor, boundary - multiset{line})
      else [line] + Accepted(rest, cursor, boundary)
  }

  /** The stamp of the last line that has one. */
  function LastStamp(lines: seq<Entry>, cursor: Option<Stamp>): Option<Stamp> {
    if lines == [] then cursor
    else
      var last := lines[|lines| - 1];
      if IsBlank(last) then LastStamp(lines[..|lines| - 1], cursor) else Some(last.at)
  }

  datatype Store = Store(events: seq<Entry>, cursor: Option<Stamp>) {
    function Boundary(): multiset<Entry> {
      if cursor.None? then multiset{} else multiset(From(Recent(events), cursor.value))
    }

    /** The store once the first `n` accepted lines are committed. */
    function Commit(accepted: seq<Entry>, now: Stamp): Store {
      Store(events + AllStored(accepted, now), LastStamp(accepted, cursor))
    }

    /** `dies` tells after how many commits the process dies, if it does. */
    function Ingest(window: seq<Entry>, now: Stamp, dies: Option<nat>): Store {
      var accepted := Accepted(window, cursor, Boundary());
      Commit(accepted[..if dies.None? then |accepted| else Min(Committed(dies.value), |accepted|)], now)
    }
  }

  /** What Docker prints: the last `tail` lines at first, then every line from the cursor on. */
  function Window(log: seq<Entry>, cursor: Option<Stamp>, tail: nat): seq<Entry> {
    if cursor.None? then log[|log| - Min(tail, |log|)..] else From(log, cursor.value)
  }

  lemma AllStoredConcat(a: seq<Entry>, b: seq<Entry>, now: Stamp)
    ensures AllStored(a + b, now) == AllStored(a, now) + AllStored(b, now)
  {
  }

  lemma {:induction false} LastStampConcat(a: seq<Entry>, b: seq<Entry>, cursor: Option<Stamp>)
    ensures LastStamp(a + b, cursor) == LastStamp(b, LastStamp(a, cursor))
  {
    if b == [] {
      assert a + b == a;
    } else {
      assert (a + b)[..|a + b| - 1] == a + b[..|b| - 1];
      LastStampConcat(a, b[..|b| - 1], cursor);
    }
  }

  lemma FromLast(entries: seq<Entry>, i: nat, at: Stamp)
    requires i < |entries|
    ensures From(entries[..i + 1], at) == From(entries[..i], at) + if entries[i].at >= at then [entries[i]] else []
  {
    assert entries[..i + 1][..i] == entries[..i];
  }

  function IndexOf(entries: seq<Entry>, entry: Entry): (k: nat)
    ensures k <= |entries|
    ensures k < |entries| ==> entries[k] == entry
    ensures k == |entries| ==> entry !in entries
  {
    if entries == [] then 0
    else if entries[0] == entry then 0
    else 1 + IndexOf(entries[1..], entry)
  }

  function RemoveAt(entries: seq<Entry>, k: nat): (rest: seq<Entry>)
    requires k < |entries|
    ensures multiset(rest) == multiset(entries) - multiset{entries[k]}
  {
    assert entries == entries[..k] + [entries[k]] + entries[k + 1..];
    entries[..k] + entries[k + 1..]
  }

  /** Lines `taken` so far: all but the `pending` ones are committed, and `last` is the last stamp among them. */
  ghost predicate Staged(before: Store, taken: seq<Entry>, pending: seq<Entry>, last: Option<Stamp>, view: Store,
                         now: Stamp)
  {
    && |pending| <= |taken|
    && last == LastStamp(taken, before.cursor)
    && view == before.Commit(taken[..|taken| - |pending|], now)
    && pending == AllStored(taken[|taken| - |pending|..], now)
  }

  lemma StageOne(before: Store, taken: seq<Entry>, pending: seq<Entry>, last: Option<Stamp>, view: Store, now: Stamp,
                 line: Entry)
    requires Staged(before, taken, pending, last, view, now)
    ensures Staged(before, taken + [line], pending + [AsStored(line, now)],
                   if IsBlank(line) then last else Some(line.at), view, now)
  {
    var all, n := taken + [line], |taken| - |pending|;
    assert all[..|all| - 1] == taken && all[..n] == taken[..n] && all[n..] == taken[n..] + [line];
    AllStoredConcat(taken[n..], [line], now);
  }

  lemma CommitStaged(before: Store, taken: seq<Entry>, pending: seq<Entry>, last: Option<Stamp>, view: Store,
                     now: Stamp)
    requires Staged(before, taken, pending, last, view, now)
    ensures Store(view.events + pending, last) == before.Commit(taken, now)
    ensures Staged(before, taken, [], last, Store(view.events + pending, last), now)
  {
    var n := |taken| - |pending|;
    assert taken[..n] + taken[n..] == taken && taken[..|taken|] == taken;
    AllStoredConcat(taken[..n], taken[n..], now);
  }

  /** What is still to be accepted, after the first `i` lines of the window. */
  ghost predicate Remaining(before: Store, window: seq<Entry>, i: nat, taken: seq<Entry>, boundary: seq<Entry>)
    requires i <= |window|
  {
    Accepted(window, before.cursor, before.Boundary())
    == taken + Accepted(window[i..], before.cursor, multiset(boundary))
  }

  lemma RemainingStep(before: Store, window: seq<Entry>, i: nat, taken: seq<Entry>, boundary: seq<Entry>,
                      more: seq<Entry>, left: seq<Entry>)
    requires i < |window| && Remaining(before, window, i, taken, boundary)
    requires Accepted(window[i..], before.cursor, multiset(boundary))
          == more + Accepted(window[i + 1..], before.cursor, multiset(left))
    ensures Remaining(before, window, i + 1, taken + more, left)
  {
    var rest := Accepted(window[i + 1..], before.cursor, multiset(left));
    assert taken + (more + rest) == taken + more + rest;
  }

  lemma DiedEarly(before: Store, window: seq<Entry>, i: nat, taken: seq<Entry>, boundary: seq<Entry>, now: Stamp,
                  dies: nat)
    requires i <= |window| && Remaining(before, window, i, taken, boundary) && |taken| == Committed(dies)
    ensures before.Ingest(window, now, Some(dies)) == before.Commit(taken, now)
  {
    assert Accepted(window, before.cursor, before.Boundary())[..|taken|] == taken;
  }

  lemma RanToTheEnd(before: Store, window: seq<Entry>, taken: seq<Entry>, boundary: seq<Entry>, now: Stamp,
                    dies: Option<nat>)
    requires Remaining(before, window, |window|, taken, boundary)
    requires dies.Some? ==> |taken| <= Committed(dies.value)
    ensures before.Ingest(window, now, dies) == before.Commit(taken, now)
  {
    assert Accepted(window, before.cursor, before.Boundary()) == taken;
    assert taken[..|taken|] == taken;
  }

  lemma NothingIngested(before: Store, window: seq<Entry>, now: Stamp)
    ensures before.Ingest(window, now, Some(0)) == before
  {
    assert AllStored([], now) == [];
  }

  lemma EverythingCommitted(before: Store, taken: seq<Entry>, pending: seq<Entry>, last: Option<Stamp>, view: Store,
                            now: Stamp)
    requires Staged(before, taken, pending, last, view, now) && pending == []
    ensures view == before.Commit(taken, now)
  {
    assert taken[..|taken|] == taken;
  }

  /** The process dies right after a commit. */
  lemma DiesHere(before: Store, window: seq<Entry>, i: nat, taken: seq<Entry>, boundary: seq<Entry>,
                 pending: seq<Entry>, last: Option<Stamp>, view: Store, now: Stamp, dies: nat)
    requires i <= |window| && Remaining(before, window, i, taken, boundary) && |taken| == Committed(dies)
    requires Staged(before, taken, pending, last, view, now) && pending == []
    ensures view == before.Ingest(window, now, Some(dies))
  {
    DiedEarly(before, window, i, taken, boundary, now, dies);
    EverythingCommitted(before, taken, pending, last, view, now);
  }

  class LogTables {
    var events: seq<Entry>
    var cursor: Option<Stamp>

    constructor ()
      ensures View() == Store([], None)
    {
      events, cursor := [], None;
    }

    function View(): Store
      reads this
    {
      Store(events, cursor)
    }

    /** The newest 500 events, newest first, that are not older than the cursor. */
    method BoundaryRecords(cursorAt: Stamp) returns (records: seq<Entry>)
      ensures multiset(records) == multiset(From(Recent(events), cursorAt))
    {
      var recent := Recent(events);
      records := [];
      var i := |recent|;
      assert recent[..i] == recent;
      while i > 0
        invariant 0 <= i <= |recent|
        invariant multiset(From(recent, cursorAt)) == multiset(From(recent[..i], cursorAt)) + multiset(records)
      {
        i := i - 1;
        FromLast(recent, i, cursorAt);
        if recent[i].at >= cursorAt {
          records := records + [recent[i]];
        }
      }
    }

    /** The line, unless an earlier poll stored it; then that stored event is used up. */
    method WithoutDuplicate(window: seq<Entry>, i: nat, cursorAt: Option<Stamp>, boundary: seq<Entry>)
      returns (more: seq<Entry>, left: seq<Entry>)
      requires i < |window|
      ensures more == [] || more == [window[i]]
      ensures Accepted(window[i..], cursorAt, multiset(boundary))
           == more + Accepted(window[i + 1..], cursorAt, multiset(left))
    {
      var line := window[i];
      assert window[i..][1..] == window[i + 1..];
      if cursorAt.Some? && !IsBlank(line) {
        if line.at < cursorAt.value {
          return [], boundary;
        }
        if line.at == cursorAt.value {
          var k := IndexOf(boundary, line);
          if k < |boundary| {
            return [], RemoveAt(boundary, k);
          }
        }
      }
      return [line], boundary;
    }

    method CommitBatch(pending: seq<Entry>, last: Option<Stamp>)
      modifies this
      ensures View() == Store(old(events) + pending, last)
    {
      events := events + pending;
      cursor := last;
    }

    /** Adds one event to the session and commits when the batch is full. */
    method StoreLine(line: Entry, now: Stamp, pending: seq<Entry>, last: Option<Stamp>, commits: nat,
                     ghost before: Store, ghost taken: seq<Entry>)
      returns (pending': seq<Entry>, last': Option<Stamp>, commits': nat)
      requires Staged(before, taken, pending, last, View(), now)
      requires |taken| == Committed(commits) + |pending| && |pending| < BATCH_SIZE
      modifies this
      ensures Staged(before, taken + [line], pending', last', View(), now)
      ensures |taken| + 1 == Committed(commits') + |pending'| && |pending'| < BATCH_SIZE
      ensures commits' == commits || (commits' == commits + 1 && pending' == [])
    {
      StageOne(before, taken, pending, last, View(), now, line);
      last' := if IsBlank(line) then last else Some(line.at);
      pending' := pending + [AsStored(line, now)];
      commits' := commits;
      if |pending'| >= BATCH_SIZE {
        CommitStaged(before, taken + [line], pending', last', View(), now);
        CommitBatch(pending', last');
        pending' := [];
        commits' := commits' + 1;
      }
    }

    method CommitRest(pending: seq<Entry>, last: Option<Stamp>, ghost before: Store, ghost taken: seq<Entry>,
                      ghost now: Stamp)
      requires Staged(before, taken, pending, last, View(), now)
      modifies this
      ensures View() == before.Commit(taken, now)
    {
      if |pending| > 0 {
        CommitStaged(before, taken, pending, last, View(), now);
        CommitBatch(pending, last);
      } else {
        EverythingCommitted(before, taken, pending, last, View(), now);
      }
    }

    /** One poll over what Docker printed; the process may die after some of its commits. */
    method IngestOnce(window: seq<Entry>, now: Stamp, dies: Option<nat>)
      modifies this
      ensures View() == old(View()).Ingest(window, now, dies)
    {
      ghost var before, taken := View(), [];
      if dies.Some? && dies.value == 0 {
        NothingIngested(before, window, now);
        return;
      }
      var cursorAt, lastSourceStamp := cursor, cursor;
      var boundary: seq<Entry> := [];
      if cursorAt.Some? {
        boundary := BoundaryRecords(cursorAt.value);
      }
      var pending: seq<Entry> := [];
      var commits: nat := 0;
      assert window[0..] == window && AllStored([], now) == [];
      for i := 0 to |window|
        invariant Remaining(before, window, i, taken, boundary)
        invariant Staged(before, taken, pending, lastSourceStamp, View(), now)
        invariant |taken| == Committed(commits) + |pending| && |pending| < BATCH_SIZE
        invariant dies.Some? ==> commits < dies.value
      {
        var more, left := WithoutDuplicate(window, i, cursorAt, boundary);
        RemainingStep(before, window, i, taken, boundary, more, left);
        boundary := left;
        if more == [] {
          assert taken + more == taken;
          continue;
        }
        pending, lastSourceStamp, commits :=
          StoreLine(window[i], now, pending, lastSourceStamp, commits, before, taken);
        taken := taken + [window[i]];
        if dies.Some? && commits == dies.value {
          DiesHere(before, window, i + 1, taken, boundary, pending, lastSourceStamp, View(), now, commits);
          return;
        }
      }
      RanToTheEnd(before, window, taken, boundary, now, dies);
      CommitRest(pending, lastSourceStamp, before, taken, now);
    }
  }
}
