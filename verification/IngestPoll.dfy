/**
 What one poll stores (dockfleet/health/log_ingestor.py, `_ingest_single_service_logs`), counted line by line for any
 window and any store, without following the loop: which lines are new, in what order they come, where the cursor goes,
 and how much a process that dies has committed.
 */
module IngestPoll {
  import opened Wrappers
  import opened LogIngest
  import opened IngestRuns

  /** How many of a line's occurrences in the window are new. */
  function NewOnes(line: Entry, occurrences: nat, cursor: Option<Stamp>, stored: nat): nat {
    if cursor.None? || IsBlank(line) || line.at > cursor.value then occurrences
    else if line.at < cursor.value then 0
    else if occurrences > stored then occurrences - stored
    else 0
  }

  /** How often a line occurs, counted from the front. */
  function Times(lines: seq<Entry>, line: Entry): nat {
    if lines == [] then 0 else AsNat(lines[0] == line) + Times(lines[1..], line)
  }

  lemma {:induction false} TimesInMultiset(lines: seq<Entry>, line: Entry)
    ensures Times(lines, line) == multiset(lines)[line]
  {
    if lines != [] {
      assert lines == [lines[0]] + lines[1..];
      TimesInMultiset(lines[1..], line);
    }
  }

  /**
   Of every line, exactly these occurrences are accepted: all of them without a cursor, beyond it, or if the line is
   blank; none before it; and at the cursor, as many as the boundary does not have already.
   */
  lemma {:induction false} AcceptedExactly(
      lines: seq<Entry>, cursor: Option<Stamp>, boundary: multiset<Entry>, line: Entry)
    ensures Times(Accepted(lines, cursor, boundary), line)
         == NewOnes(line, Times(lines, line), cursor, boundary[line])
  {
    if lines != [] {
      var head, rest := lines[0], lines[1..];
      var duplicate := cursor.Some? && !IsBlank(head) && head.at == cursor.value && head in boundary;
      var left := if duplicate then boundary - multiset{head} else boundary;
      AcceptedExactly(rest, cursor, left, line);
      var more := Accepted(rest, cursor, left);
      assert ([head] + more)[1..] == more;
    }
  }

  /** The positions of the accepted lines go up: nothing overtakes. */
  ghost predicate KeepsOrder(picked: seq<Entry>, lines: seq<Entry>, places: seq<nat>) {
    && |places| == |picked|
    && (forall i | 0 <= i < |places| :: places[i] < |lines| && lines[places[i]] == picked[i])
    && (forall i, j | 0 <= i < j < |places| :: places[i] < places[j])
  }

  lemma Shifted(picked: seq<Entry>, lines: seq<Entry>, places: seq<nat>, head: Entry) returns (shifted: seq<nat>)
    requires KeepsOrder(picked, lines, places)
    ensures KeepsOrder(picked, [head] + lines, shifted) && forall i | 0 <= i < |shifted| :: shifted[i] > 0
  {
    shifted := seq(|places|, i requires 0 <= i < |places| => places[i] + 1);
  }

  lemma WithHead(picked: seq<Entry>, rest: seq<Entry>, shifted: seq<nat>, head: Entry)
    requires KeepsOrder(picked, [head] + rest, shifted) && forall i | 0 <= i < |shifted| :: shifted[i] > 0
    ensures KeepsOrder([head] + picked, [head] + rest, [0] + shifted)
  {
  }

  lemma {:induction false} AcceptedInOrder(lines: seq<Entry>, cursor: Option<Stamp>, boundary: multiset<Entry>)
    returns (places: seq<nat>)
    ensures KeepsOrder(Accepted(lines, cursor, boundary), lines, places)
  {
    if lines == [] {
      places := [];
    } else {
      var head, rest := lines[0], lines[1..];
      assert lines == [head] + rest;
      var duplicate := cursor.Some? && !IsBlank(head) && head.at == cursor.value && head in boundary;
      var left := if duplicate then boundary - multiset{head} else boundary;
      var later := AcceptedInOrder(rest, cursor, left);
      var picked := Accepted(rest, cursor, left);
      var shifted := Shifted(picked, rest, later, head);
      if Accepted(lines, cursor, boundary) == [head] + picked {
        places := [0] + shifted;
        WithHead(picked, rest, shifted, head);
      } else {
        places := shifted;
      }
    }
  }

  /** The cursor after some lines is the stamp of the last one that has a stamp. */
  lemma {:induction false} LastStampExactly(lines: seq<Entry>, cursor: Option<Stamp>, i: nat)
    requires i < |lines| && !IsBlank(lines[i]) && forall j | i < j < |lines| :: IsBlank(lines[j])
    ensures LastStamp(lines, cursor) == Some(lines[i].at)
  {
    var n := |lines| - 1;
    if i < n {
      LastStampExactly(lines[..n], cursor, i);
    }
  }

  /** Without such a line it is what it was. */
  lemma {:induction false} LastStampOfBlanks(lines: seq<Entry>, cursor: Option<Stamp>)
    requires forall i | 0 <= i < |lines| :: IsBlank(lines[i])
    ensures LastStamp(lines, cursor) == cursor
  {
    if lines != [] {
      LastStampOfBlanks(lines[..|lines| - 1], cursor);
    }
  }

  /**
   A process that dies after some commits has stored exactly a thousand accepted lines for each of them, or all of them
   when there are fewer; one that does not die has stored all of them.
   */
  lemma CommittedExactly(store: Store, window: seq<Entry>, now: Stamp, dies: Option<nat>)
    ensures var accepted, after := Accepted(window, store.cursor, store.Boundary()), store.Ingest(window, now, dies);
            && store.events <= after.events
            && (|after.events| - |store.events|
                == if dies.Some? && 1000 * dies.value < |accepted| then 1000 * dies.value else |accepted|)
            && (forall i | |store.events| <= i < |after.events| ::
                  var line := accepted[i - |store.events|];
                  after.events[i] == if IsBlank(line) then Entry(now, "") else line)
  {
  }

  /** The boundary is what the newest 500 events have at or after the cursor, event by event. */
  lemma BoundaryExactly(store: Store, entry: Entry)
    ensures var newest := if |store.events| <= 500 then store.events else store.events[|store.events| - 500..];
            store.Boundary()[entry]
            == if store.cursor.Some? && entry.at >= store.cursor.value then Times(newest, entry) else 0
  {
    var newest := Recent(store.events);
    if store.cursor.Some? {
      FromCounts(newest, store.cursor.value, entry);
      TimesInMultiset(newest, entry);
    }
  }

  lemma {:induction false} FromCounts(entries: seq<Entry>, at: Stamp, entry: Entry)
    ensures multiset(From(entries, at))[entry] == if entry.at >= at then multiset(entries)[entry] else 0
  {
    if entries != [] {
      var n := |entries| - 1;
      FromCounts(entries[..n], at, entry);
      assert entries == entries[..n] + [entries[n]];
    }
  }
}
