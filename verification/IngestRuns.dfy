/**
 Ingestion over whole runs: the log grows, polls complete, fail or die between commits, in any order. Every line newer
 than the first cursor ends up stored exactly once and in log order, and no line is stored more often than it occurs.
 */
module IngestRuns {
  import opened Wrappers
  import opened LogIngest

  datatype Step =
    | Grow(lines: seq<Entry>)
    | Poll(now: Stamp, tail: nat, dies: Option<nat>)
    | FailedPoll

  datatype World = World(log: seq<Entry>, store: Store)

  function Apply(w: World, step: Step): World {
    match step
    case Grow(lines) => w.(log := w.log + lines)
    case Poll(now, tail, dies) => w.(store := w.store.Ingest(Window(w.log, w.store.cursor, tail), now, dies))
    case FailedPoll => w
  }

  function Run(steps: seq<Step>): World {
    if steps == [] then World([], Store([], None))
    else Apply(Run(steps[..|steps| - 1]), steps[|steps| - 1])
  }

  /** The first cursor that was ever committed. */
  function FirstCursor(steps: seq<Step>): Option<Stamp> {
    if steps == [] then None
    else
      var earlier := FirstCursor(steps[..|steps| - 1]);
      if earlier.Some? then earlier else Run(steps).store.cursor
  }

  ghost predicate Sorted(entries: seq<Entry>) {
    forall i, j | 0 <= i < j < |entries| :: entries[i].at <= entries[j].at
  }

  /** Non-blank lines in time order, at most 500 of them with one stamp. */
  ghost predicate GoodLog(log: seq<Entry>) {
    && Sorted(log)
    && (forall i | 0 <= i < |log| :: !IsBlank(log[i]))
    && (forall i, j | 0 <= i < j < |log| && j - i >= 500 :: log[i].at < log[j].at)
  }

  // ---------------------------------------------------------------- occurrences

  function Occurs(entries: seq<Entry>, entry: Entry): nat {
    if entries == [] then 0
    else Occurs(entries[..|entries| - 1], entry) + if entries[|entries| - 1] == entry then 1 else 0
  }

  /** No entry occurs more often in `a` than in `b`. */
  ghost predicate Within(a: seq<Entry>, b: seq<Entry>) {
    forall entry :: Occurs(a, entry) <= Occurs(b, entry)
  }

  lemma {:induction false} OccursInMultiset(entries: seq<Entry>, entry: Entry)
    ensures Occurs(entries, entry) == multiset(entries)[entry]
  {
    if entries != [] {
      OccursInMultiset(entries[..|entries| - 1], entry);
      assert entries == entries[..|entries| - 1] + [entries[|entries| - 1]];
    }
  }

  lemma WithinIsMultiset(a: seq<Entry>, b: seq<Entry>)
    ensures Within(a, b) <==> multiset(a) <= multiset(b)
  {
    forall entry
      ensures Occurs(a, entry) == multiset(a)[entry] && Occurs(b, entry) == multiset(b)[entry]
    {
      OccursInMultiset(a, entry);
      OccursInMultiset(b, entry);
    }
    if multiset(a) <= multiset(b) {
      forall entry
        ensures Occurs(a, entry) <= Occurs(b, entry)
      {
        assert multiset(a)[entry] <= multiset(b)[entry];
      }
    }
  }

  lemma WithinMore(a: seq<Entry>, b: seq<Entry>, more: seq<Entry>)
    requires Within(a, b)
    ensures Within(a, b + more)
  {
    WithinIsMultiset(a, b);
    WithinIsMultiset(a, b + more);
  }

  // ---------------------------------------------------------------- sorted sequences

  ghost predicate SplitsAt(entries: seq<Entry>, at: Stamp, k: nat) {
    && k <= |entries|
    && (forall i | 0 <= i < k :: entries[i].at < at)
    && (forall i | k <= i < |entries| :: entries[i].at >= at)
  }

  lemma {:induction false} FromIsSuffix(entries: seq<Entry>, at: Stamp, k: nat)
    requires SplitsAt(entries, at, k)
    ensures From(entries, at) == entries[k..]
  {
    if entries != [] {
      var n := |entries| - 1;
      if k <= n {
        FromIsSuffix(entries[..n], at, k);
        assert entries[k..] == entries[..n][k..] + [entries[n]];
      } else {
        FromIsSuffix(entries[..n], at, n);
      }
    }
  }

  lemma {:induction false} Split(entries: seq<Entry>, at: Stamp) returns (k: nat)
    requires Sorted(entries)
    ensures SplitsAt(entries, at, k)
  {
    k := |entries|;
    if entries != [] && entries[|entries| - 1].at >= at {
      k := Split(entries[..|entries| - 1], at);
    }
  }

  lemma FromConcat(a: seq<Entry>, b: seq<Entry>, at: Stamp)
    ensures From(a + b, at) == From(a, at) + From(b, at)
  {
    if b == [] {
      assert a + b == a;
    } else {
      FromConcat(a, b[..|b| - 1], at);
      assert (a + b)[..|a + b| - 1] == a + b[..|b| - 1];
    }
  }

  /** When at most 500 events are that young, the newest 500 have them all. */
  lemma RecentHasThem(events: seq<Entry>, at: Stamp, k: nat)
    requires SplitsAt(events, at, k) && |events| - k <= BOUNDARY_SIZE
    ensures From(Recent(events), at) == events[k..]
  {
    var cut := |events| - |Recent(events)|;
    assert Recent(events) == events[cut..];
    FromIsSuffix(Recent(events), at, k - cut);
  }

  // ---------------------------------------------------------------- what one poll accepts

  lemma {:induction false} NothingToDrop(lines: seq<Entry>, cursor: Option<Stamp>)
    requires cursor.Some? ==> forall i | 0 <= i < |lines| :: lines[i].at >= cursor.value
    ensures Accepted(lines, cursor, multiset{}) == lines
  {
    if lines != [] {
      NothingToDrop(lines[1..], cursor);
    }
  }

  lemma {:induction false} EverythingWithoutCursor(lines: seq<Entry>, boundary: multiset<Entry>)
    ensures Accepted(lines, None, boundary) == lines
  {
    if lines != [] {
      EverythingWithoutCursor(lines[1..], boundary);
    }
  }

  ghost predicate AllAt(group: seq<Entry>, at: Stamp) {
    forall i | 0 <= i < |group| :: group[i].at == at && !IsBlank(group[i])
  }

  /** Lines at the cursor use up the boundary they find. */
  lemma {:induction false} GroupFirst(group: seq<Entry>, rest: seq<Entry>, at: Stamp, boundary: multiset<Entry>)
    requires AllAt(group, at)
    ensures Accepted(group + rest, Some(at), boundary)
         == Accepted(group, Some(at), boundary) + Accepted(rest, Some(at), boundary - multiset(group))
  {
    if group == [] {
      assert group + rest == rest && boundary - multiset(group) == boundary;
    } else {
      var line, others := group[0], group[1..];
      assert group == [line] + others && group + rest == [line] + (others + rest);
      AcceptOne(line, others + rest, at, boundary);
      AcceptOne(line, others, at, boundary);
      MinusGroup(line, others, boundary);
      var left := if line in boundary then boundary - multiset{line} else boundary;
      GroupFirst(others, rest, at, left);
      var kept, more := if line in boundary then [] else [line], Accepted(others, Some(at), left);
      var later := Accepted(rest, Some(at), boundary - multiset(group));
      assert Accepted(group, Some(at), boundary) == kept + more;
      assert kept + (more + later) == kept + more + later;
    }
  }

  lemma MinusGroup(line: Entry, others: seq<Entry>, boundary: multiset<Entry>)
    ensures boundary - multiset([line] + others)
         == (if line in boundary then boundary - multiset{line} else boundary) - multiset(others)
  {
    assert multiset([line] + others) == multiset{line} + multiset(others);
  }

  /** What is left over of a group that has the whole boundary. */
  lemma {:induction false} GroupLeft(group: seq<Entry>, at: Stamp, boundary: multiset<Entry>)
    requires AllAt(group, at) && boundary <= multiset(group)
    ensures multiset(Accepted(group, Some(at), boundary)) + boundary == multiset(group)
  {
    if group != [] {
      var line, others := group[0], group[1..];
      assert group == [line] + others;
      assert multiset(group) == multiset{line} + multiset(others);
      AcceptOne(line, others, at, boundary);
      WithoutOne(line, multiset(others), boundary);
      if line in boundary {
        GroupLeft(others, at, boundary - multiset{line});
        UsedOne(line, multiset(Accepted(group, Some(at), boundary)), boundary, multiset(others));
      } else {
        GroupLeft(others, at, boundary);
        LeftOne(line, Accepted(others, Some(at), boundary), boundary, multiset(others));
      }
    }
  }

  lemma UsedOne(line: Entry, left: multiset<Entry>, boundary: multiset<Entry>, others: multiset<Entry>)
    requires line in boundary && left + (boundary - multiset{line}) == others
    ensures left + boundary == multiset{line} + others
  {
    assert boundary == boundary - multiset{line} + multiset{line};
  }

  lemma LeftOne(line: Entry, more: seq<Entry>, boundary: multiset<Entry>, others: multiset<Entry>)
    requires multiset(more) + boundary == others
    ensures multiset([line] + more) + boundary == multiset{line} + others
  {
    assert multiset([line] + more) == multiset{line} + multiset(more);
  }

  /**
   Lines at the cursor, all of the boundary among them: what is left over is accepted, and the boundary is used up.
   */
  lemma Leftover(group: seq<Entry>, rest: seq<Entry>, at: Stamp, boundary: multiset<Entry>) returns (left: seq<Entry>)
    requires AllAt(group, at) && boundary <= multiset(group)
    ensures Accepted(group + rest, Some(at), boundary) == left + Accepted(rest, Some(at), multiset{})
    ensures multiset(left) + boundary == multiset(group)
  {
    left := Accepted(group, Some(at), boundary);
    GroupFirst(group, rest, at, boundary);
    assert boundary - multiset(group) == multiset{};
    GroupLeft(group, at, boundary);
  }

  lemma WithoutOne(line: Entry, others: multiset<Entry>, boundary: multiset<Entry>)
    requires boundary <= multiset{line} + others
    ensures if line in boundary then boundary - multiset{line} <= others else boundary <= others
  {
    forall entry | entry in boundary
      ensures boundary[entry] <= multiset{line}[entry] + others[entry]
    {
      assert boundary[entry] <= (multiset{line} + others)[entry];
    }
  }

  lemma AcceptOne(line: Entry, rest: seq<Entry>, at: Stamp, boundary: multiset<Entry>)
    requires line.at == at && !IsBlank(line)
    ensures Accepted([line] + rest, Some(at), boundary)
         == if line in boundary then Accepted(rest, Some(at), boundary - multiset{line})
            else [line] + Accepted(rest, Some(at), boundary)
  {
    assert ([line] + rest)[1..] == rest;
  }

  // ---------------------------------------------------------------- the invariant

  /**
   The first `k` lines are not newer than the first cursor, and events for some of them, no line twice, come first; then
   the newer lines up to the `q`-th, each once and in order. The cursor is the stamp of the last newer line, if any.
   */
  ghost predicate Progress(w: World, first: Stamp, early: seq<Entry>, k: nat, q: nat) {
    && SplitsAt(w.log, first + 1, k) && k <= q <= |w.log|
    && w.store.events == early + w.log[k..q]
    && w.store.cursor == Some(if q > k then w.log[q - 1].at else first)
    && Sorted(early) && (forall i | 0 <= i < |early| :: early[i].at <= first)
    && Within(early, w.log[..k])
  }

  ghost predicate Inv(w: World, first: Option<Stamp>) {
    if first.None? then w.store == Store([], None)
    else exists early, k, q :: Progress(w, first.value, early, k, q)
  }

  /** With newer lines stored, more lines change nothing of what is stored. */
  lemma GrowBeyond(w: World, first: Stamp, early: seq<Entry>, k: nat, q: nat, lines: seq<Entry>)
    requires Progress(w, first, early, k, q) && q > k && Sorted(w.log + lines)
    ensures Progress(World(w.log + lines, w.store), first, early, k, q)
  {
    var log := w.log + lines;
    assert log[..k] == w.log[..k] && log[k..q] == w.log[k..q] && log[q - 1] == w.log[q - 1] && log[k] == w.log[k];
    assert SplitsAt(log, first + 1, k);
  }

  /** Without newer lines stored, more lines at the first cursor may come; what is stored is still some of them. */
  lemma GrowAtFirst(w: World, first: Stamp, early: seq<Entry>, k: nat, lines: seq<Entry>) returns (k': nat)
    requires Progress(w, first, early, k, k) && Sorted(w.log + lines)
    ensures Progress(World(w.log + lines, w.store), first, early, k', k')
  {
    var log := w.log + lines;
    k' := Split(log, first + 1);
    assert k > 0 ==> log[k - 1] == w.log[k - 1];
    assert k' >= k;
    assert w.log[k..k] == [] == log[k'..k'];
    assert log[..k'] == w.log[..k] + log[k..k'];
    WithinMore(early, w.log[..k], log[k..k']);
  }

  lemma GrowStep(w: World, first: Stamp, early: seq<Entry>, k: nat, q: nat, lines: seq<Entry>)
    requires Progress(w, first, early, k, q) && GoodLog(w.log + lines)
    ensures Inv(Apply(w, Grow(lines)), Some(first))
  {
    if q > k {
      GrowBeyond(w, first, early, k, q, lines);
    } else {
      var k' := GrowAtFirst(w, first, early, k, lines);
    }
  }

  lemma SliceIsBelow(log: seq<Entry>, t: nat, n: nat, k: nat)
    requires t <= n <= k <= |log|
    ensures Within(log[t..n], log[..k])
  {
    assert log[..k] == log[..t] + log[t..n] + log[n..k];
    WithinIsMultiset(log[t..n], log[..k]);
  }

  /** The first cursor: a batch of the last lines, all of them not newer than the batch's last. */
  lemma FirstCommit(w: World, t: nat, n: nat)
    requires w.store == Store([], None) && GoodLog(w.log) && t < n <= |w.log|
    ensures Inv(World(w.log, Store(w.log[t..n], Some(w.log[n - 1].at))), Some(w.log[n - 1].at))
  {
    var first := w.log[n - 1].at;
    var k := Split(w.log, first + 1);
    assert k >= n;
    SliceIsBelow(w.log, t, n, k);
    var after := World(w.log, Store(w.log[t..n], Some(first)));
    assert w.log[t..n] + w.log[k..k] == w.log[t..n];
    assert Progress(after, first, w.log[t..n], k, k);
  }

  lemma {:induction false} StoredAsIs(lines: seq<Entry>, now: Stamp, cursor: Option<Stamp>)
    requires forall i | 0 <= i < |lines| :: !IsBlank(lines[i])
    ensures AllStored(lines, now) == lines
    ensures LastStamp(lines, cursor) == if lines == [] then cursor else Some(lines[|lines| - 1].at)
  {
  }

  function CommittedOf(accepted: nat, dies: Option<nat>): nat {
    if dies.None? then accepted else Min(Committed(dies.value), accepted)
  }

  lemma IngestOfGoodLines(store: Store, window: seq<Entry>, accepted: seq<Entry>, now: Stamp, dies: Option<nat>)
    requires Accepted(window, store.cursor, store.Boundary()) == accepted
    requires forall i | 0 <= i < |accepted| :: !IsBlank(accepted[i])
    ensures var n := CommittedOf(|accepted|, dies);
            store.Ingest(window, now, dies)
            == Store(store.events + accepted[..n], if n == 0 then store.cursor else Some(accepted[n - 1].at))
  {
    var n := CommittedOf(|accepted|, dies);
    StoredAsIs(accepted[..n], now, store.cursor);
  }

  lemma WindowSlice(log: seq<Entry>, t: nat, n: nat)
    requires t + n <= |log|
    ensures log[t..][..n] == log[t..t + n]
    ensures n > 0 ==> log[t..][n - 1] == log[t + n - 1]
  {
  }

  /** A poll without a cursor, over lines that are not blank: a prefix of its window is stored as it is. */
  lemma IngestWithoutCursor(window: seq<Entry>, now: Stamp, dies: Option<nat>)
    requires forall i | 0 <= i < |window| :: !IsBlank(window[i])
    ensures var n := CommittedOf(|window|, dies);
            Store([], None).Ingest(window, now, dies)
            == Store(window[..n], if n == 0 then None else Some(window[n - 1].at))
  {
    var none := Store([], None);
    EverythingWithoutCursor(window, none.Boundary());
    IngestOfGoodLines(none, window, window, now, dies);
    assert [] + window[..CommittedOf(|window|, dies)] == window[..CommittedOf(|window|, dies)];
  }

  lemma FirstIngest(log: seq<Entry>, t: nat, now: Stamp, dies: Option<nat>)
    requires t <= |log| && forall line | line in log[t..] :: !IsBlank(line)
    ensures var store := Store([], None).Ingest(log[t..], now, dies);
            var n := CommittedOf(|log| - t, dies);
            store == Store(log[t..t + n], if n == 0 then None else Some(log[t + n - 1].at))
  {
    IngestWithoutCursor(log[t..], now, dies);
    WindowSlice(log, t, CommittedOf(|log| - t, dies));
  }

  lemma FirstIngestAll(log: seq<Entry>, t: nat, now: Stamp) returns (store: Store)
    requires t <= |log| && forall line | line in log[t..] :: !IsBlank(line)
    ensures store == Store([], None).Ingest(log[t..], now, None)
    ensures store == Store(log[t..|log|], if t == |log| then None else Some(log[|log| - 1].at))
  {
    FirstIngest(log, t, now, None);
    assert log[t..t + (|log| - t)] == log[t..|log|];
    store := Store(log[t..|log|], if t == |log| then None else Some(log[|log| - 1].at));
  }

  /** Before any cursor, a poll that commits some of the last lines. */
  lemma FirstPoll(log: seq<Entry>, t: nat, now: Stamp, dies: Option<nat>)
    requires GoodLog(log) && t <= |log|
    ensures var store := Store([], None).Ingest(log[t..], now, dies);
            && Inv(World(log, store), store.cursor)
            && (store.cursor.Some? <==> CommittedOf(|log| - t, dies) > 0)
  {
    FirstIngest(log, t, now, dies);
    var n := CommittedOf(|log| - t, dies);
    if n > 0 {
      FirstCommit(World(log, Store([], None)), t, t + n);
    } else {
      assert log[t..t] == [];
    }
  }

  lemma SameStamps(log: seq<Entry>, r: nat, q: nat)
    requires GoodLog(log) && r <= q <= |log|
    requires forall i | r <= i < q :: log[i].at == log[r].at
    ensures q - r <= BOUNDARY_SIZE
  {
    var stamps := if q > r then (log[r].at, log[q - 1].at) else (0, 0);
    assert stamps.0 == stamps.1;
  }

  lemma SmallerMultiset(a: multiset<Entry>, b: multiset<Entry>)
    requires a <= b
    ensures |a| <= |b|
  {
    assert b == a + (b - a);
  }

  /** Stored events at the first cursor's stamp are lines of the log with that stamp. */
  lemma EarlyAtFirst(log: seq<Entry>, first: Stamp, early: seq<Entry>, k: nat, r: nat, d: nat)
    requires SplitsAt(log, first, r) && r <= k <= |log|
    requires Within(early, log[..k]) && SplitsAt(early, first, d)
    ensures multiset(early[d..]) <= multiset(log[r..k])
    ensures |early| - d <= k - r
  {
    WithinIsMultiset(early, log[..k]);
    assert early == early[..d] + early[d..];
    assert log[..k] == log[..r] + log[r..k];
    forall entry | entry in multiset(early[d..])
      ensures multiset(early[d..])[entry] <= multiset(log[r..k])[entry]
    {
      assert entry in early[d..];
      assert entry.at >= first;
      assert entry !in log[..r];
      assert multiset(log[..r])[entry] == 0;
      assert multiset(early)[entry] >= multiset(early[d..])[entry];
    }
    SmallerMultiset(multiset(early[d..]), multiset(log[r..k]));
  }

  /** With the cursor beyond the first, the boundary is exactly the lines stored with the cursor's stamp. */
  lemma BoundaryBeyondFirst(w: World, first: Stamp, early: seq<Entry>, k: nat, q: nat) returns (r: nat)
    requires Progress(w, first, early, k, q) && GoodLog(w.log) && q > k
    ensures SplitsAt(w.log, w.store.cursor.value, r) && k <= r <= q
    ensures w.store.Boundary() == multiset(w.log[r..q])
  {
    var c, events := w.store.cursor.value, w.store.events;
    r := Split(w.log, c);
    assert k <= r < q;
    SameStamps(w.log, r, q);
    var d := |early| + r - k;
    assert events[d..] == w.log[r..q];
    assert forall i | |early| <= i < |events| :: events[i] == w.log[i - |early| + k];
    assert SplitsAt(events, c, d);
    RecentHasThem(events, c, d);
  }

  /** At the first cursor, the boundary is some of the lines with its stamp. */
  lemma BoundaryAtFirst(w: World, first: Stamp, early: seq<Entry>, k: nat) returns (r: nat)
    requires Progress(w, first, early, k, k) && GoodLog(w.log)
    ensures SplitsAt(w.log, first, r) && r <= k
    ensures w.store.Boundary() == multiset(From(early, first)) <= multiset(w.log[r..k])
  {
    r := Split(w.log, first);
    assert k < |w.log| ==> w.log[k].at >= first;
    SameStamps(w.log, r, k);
    assert w.store.events == early;
    var d := Split(early, first);
    EarlyAtFirst(w.log, first, early, k, r, d);
    FromIsSuffix(early, first, d);
    RecentHasThem(early, first, d);
  }

  // ---------------------------------------------------------------- later polls

  /** The lines from the cursor on, up to those already stored, with a boundary taken from them. */
  lemma AcceptedFrom(log: seq<Entry>, at: Stamp, r: nat, q: nat, boundary: multiset<Entry>) returns (left: seq<Entry>)
    requires SplitsAt(log, at, r) && r <= q <= |log|
    requires forall i | r <= i < q :: log[i].at == at && !IsBlank(log[i])
    requires boundary <= multiset(log[r..q])
    ensures Accepted(From(log, at), Some(at), boundary) == left + log[q..]
    ensures multiset(left) + boundary == multiset(log[r..q])
  {
    FromIsSuffix(log, at, r);
    assert log[r..] == log[r..q] + log[q..];
    left := Leftover(log[r..q], log[q..], at, boundary);
    NothingToDrop(log[q..], Some(at));
  }

  lemma NoneLeft(left: seq<Entry>, boundary: multiset<Entry>)
    requires multiset(left) + boundary == boundary
    ensures left == []
  {
    assert |multiset(left) + boundary| == |multiset(left)| + |boundary|;
    assert |multiset(left)| == |left|;
  }

  /**
   What a later poll accepts: some lines at the first cursor that were missing, then every newer line not yet stored.
   */
  lemma AcceptedLater(w: World, first: Stamp, early: seq<Entry>, k: nat, q: nat) returns (left: seq<Entry>)
    requires Progress(w, first, early, k, q) && GoodLog(w.log)
    ensures Accepted(From(w.log, w.store.cursor.value), w.store.cursor, w.store.Boundary()) == left + w.log[q..]
    ensures q > k ==> left == []
    ensures forall i | 0 <= i < |left| :: left[i].at == first && !IsBlank(left[i])
    ensures Within(early + left, w.log[..k])
  {
    if q > k {
      var r := BoundaryBeyondFirst(w, first, early, k, q);
      left := AcceptedFrom(w.log, w.store.cursor.value, r, q, w.store.Boundary());
      NoneLeft(left, w.store.Boundary());
      assert early + left == early;
    } else {
      var r := BoundaryAtFirst(w, first, early, k);
      left := AcceptedFrom(w.log, first, r, k, w.store.Boundary());
      LeftoverFits(w.log, first, early, left, r, k);
    }
  }

  /** One entry, counted: the events kept and the lines left over do not exceed the log's lines. */
  lemma LeftoverCount(log: seq<Entry>, first: Stamp, early: seq<Entry>, left: seq<Entry>, r: nat, k: nat, d: nat,
                      entry: Entry)
    requires SplitsAt(log, first, r) && r <= k <= |log| && (forall i | r <= i < k :: log[i].at == first)
    requires SplitsAt(early, first, d) && (forall i | d <= i < |early| :: early[i].at == first)
    requires Within(early, log[..k]) && multiset(left) + multiset(early[d..]) == multiset(log[r..k])
    ensures multiset(early + left)[entry] <= multiset(log[..k])[entry]
  {
    WithinIsMultiset(early, log[..k]);
    assert early == early[..d] + early[d..];
    assert log[..k] == log[..r] + log[r..k];
    if entry.at == first {
      assert entry !in early[..d];
    } else {
      assert entry !in log[r..k];
      assert entry !in multiset(left) + multiset(early[d..]);
    }
  }

  lemma LeftoverLines(log: seq<Entry>, left: seq<Entry>, boundary: multiset<Entry>, r: nat, k: nat)
    requires r <= k <= |log| && multiset(left) + boundary == multiset(log[r..k])
    ensures forall i | 0 <= i < |left| :: left[i] in log[r..k]
  {
    forall i | 0 <= i < |left|
      ensures left[i] in log[r..k]
    {
      assert left[i] in multiset(left) + boundary;
    }
  }

  lemma LeftoverFits(log: seq<Entry>, first: Stamp, early: seq<Entry>, left: seq<Entry>, r: nat, k: nat)
    requires SplitsAt(log, first, r) && r <= k <= |log|
        && (forall i | r <= i < k :: log[i].at == first && !IsBlank(log[i]))
    requires Sorted(early) && (forall i | 0 <= i < |early| :: early[i].at <= first)
    requires Within(early, log[..k])
    requires multiset(left) + multiset(From(early, first)) == multiset(log[r..k])
    ensures forall i | 0 <= i < |left| :: left[i].at == first && !IsBlank(left[i])
    ensures Within(early + left, log[..k])
  {
    LeftoverLines(log, left, multiset(From(early, first)), r, k);
    forall i | 0 <= i < |left|
      ensures left[i].at == first && !IsBlank(left[i])
    {
      var j :| 0 <= j < k - r && log[r..k][j] == left[i];
      assert log[r + j].at == first;
    }
    var d := Split(early, first);
    FromIsSuffix(early, first, d);
    forall entry
      ensures Occurs(early + left, entry) <= Occurs(log[..k], entry)
    {
      LeftoverCount(log, first, early, left, r, k, d, entry);
      OccursInMultiset(early + left, entry);
      OccursInMultiset(log[..k], entry);
    }
  }

  /** Of the events, the newer ones are exactly the newer lines up to the `q`-th. */
  lemma NewerEvents(log: seq<Entry>, first: Stamp, early: seq<Entry>, k: nat, q: nat)
    requires SplitsAt(log, first + 1, k) && k <= q <= |log|
    requires forall i | 0 <= i < |early| :: early[i].at <= first
    ensures From(early + log[k..q], first + 1) == log[k..q]
    ensures From(log, first + 1) == log[k..]
  {
    FromConcat(early, log[k..q], first + 1);
    FromIsSuffix(early, first + 1, |early|);
    FromIsSuffix(log[k..q], first + 1, 0);
    FromIsSuffix(log, first + 1, k);
  }

  lemma FewerLeft(w: World, early: seq<Entry>, left: seq<Entry>, k: nat, n: nat)
    requires k <= |w.log| && Within(early + left, w.log[..k]) && n <= |left|
    ensures Within(early + left[..n], w.log[..k])
  {
    WithinIsMultiset(early + left, w.log[..k]);
    WithinIsMultiset(early + left[..n], w.log[..k]);
    assert left == left[..n] + left[n..];
    assert early + left == early + left[..n] + left[n..];
  }

  /** A poll that commits no more than the missing lines at the first cursor. */
  lemma CommitLeft(w: World, first: Stamp, early: seq<Entry>, left: seq<Entry>, k: nat, q: nat, after: World)
    requires Progress(w, first, early, k, q) && (q > k ==> left == []) && after.log == w.log
    requires (forall i | 0 <= i < |left| :: left[i].at == first) && Within(early + left, w.log[..k])
    requires after.store.events == w.store.events + left
    requires after.store.cursor == if left == [] then w.store.cursor else Some(first)
    ensures Progress(after, first, early + left, k, q)
  {
    if q > k {
      assert early + left == early && w.store.events + left == w.store.events;
    } else {
      assert w.log[k..q] == [] && early + w.log[k..q] == early;
    }
  }

  /** A poll that commits all the missing lines and some newer ones. */
  lemma CommitNewer(w: World, first: Stamp, early: seq<Entry>, left: seq<Entry>, k: nat, q: nat, q': nat, after: World)
    requires Progress(w, first, early, k, q) && (q > k ==> left == []) && after.log == w.log && q < q' <= |w.log|
    requires (forall i | 0 <= i < |left| :: left[i].at == first) && Within(early + left, w.log[..k])
    requires after.store == Store(w.store.events + (left + w.log[q..q']), Some(w.log[q' - 1].at))
    ensures Progress(after, first, early + left, k, q')
  {
    Regroup(w.log, early, left, k, q, q');
    if q > k {
      assert early + left == early;
    }
  }

  lemma Regroup(log: seq<Entry>, early: seq<Entry>, left: seq<Entry>, k: nat, q: nat, q': nat)
    requires k <= q <= q' <= |log| && (q > k ==> left == [])
    ensures early + log[k..q] + (left + log[q..q']) == early + left + log[k..q']
  {
    assert log[k..q'] == log[k..q] + log[q..q'];
    if q == k {
      assert log[k..q] == [];
    }
  }

  /** What a later poll stores: a part of what it accepts. */
  lemma LaterIngest(w: World, first: Stamp, early: seq<Entry>, k: nat, q: nat, now: Stamp, dies: Option<nat>)
    returns (left: seq<Entry>)
    requires Progress(w, first, early, k, q) && GoodLog(w.log)
    ensures q > k ==> left == []
    ensures forall i | 0 <= i < |left| :: left[i].at == first
    ensures Within(early + left, w.log[..k])
    ensures var accepted := left + w.log[q..];
            var n := CommittedOf(|accepted|, dies);
            w.store.Ingest(From(w.log, w.store.cursor.value), now, dies)
            == Store(w.store.events + accepted[..n], if n == 0 then w.store.cursor else Some(accepted[n - 1].at))
  {
    left := AcceptedLater(w, first, early, k, q);
    IngestOfGoodLines(w.store, From(w.log, w.store.cursor.value), left + w.log[q..], now, dies);
  }

  /** Committing the first `n` of what a later poll accepts. */
  lemma CommitPart(w: World, first: Stamp, early: seq<Entry>, left: seq<Entry>, k: nat, q: nat, n: nat, after: World)
    returns (early': seq<Entry>, q': nat)
    requires Progress(w, first, early, k, q) && (q > k ==> left == []) && after.log == w.log
    requires (forall i | 0 <= i < |left| :: left[i].at == first) && Within(early + left, w.log[..k])
    requires n <= |left + w.log[q..]|
    requires var accepted := left + w.log[q..];
             after.store == Store(w.store.events + accepted[..n],
                                  if n == 0 then w.store.cursor else Some(accepted[n - 1].at))
    ensures Progress(after, first, early', k, q')
    ensures n == |left + w.log[q..]| ==> q' == |w.log|
  {
    var accepted := left + w.log[q..];
    if n <= |left| {
      assert accepted[..n] == left[..n];
      FewerLeft(w, early, left, k, n);
      CommitLeft(w, first, early, left[..n], k, q, after);
      early', q' := early + left[..n], q;
    } else {
      early', q' := early + left, q + (n - |left|);
      assert accepted[..n] == left + w.log[q..q'];
      assert accepted[n - 1] == w.log[q' - 1];
      CommitNewer(w, first, early, left, k, q, q', after);
    }
  }

  lemma LaterPoll(w: World, first: Stamp, early: seq<Entry>, k: nat, q: nat, now: Stamp, dies: Option<nat>)
    returns (store: Store, early': seq<Entry>, q': nat)
    requires Progress(w, first, early, k, q) && GoodLog(w.log)
    ensures store == w.store.Ingest(From(w.log, w.store.cursor.value), now, dies)
    ensures Progress(World(w.log, store), first, early', k, q')
    ensures dies.None? ==> q' == |w.log|
  {
    var left := LaterIngest(w, first, early, k, q, now, dies);
    var accepted := left + w.log[q..];
    var n := CommittedOf(|accepted|, dies);
    store := Store(w.store.events + accepted[..n], if n == 0 then w.store.cursor else Some(accepted[n - 1].at));
    early', q' := CommitPart(w, first, early, left, k, q, n, World(w.log, store));
  }

  // ---------------------------------------------------------------- over every run

  lemma GoodPrefix(log: seq<Entry>, lines: seq<Entry>)
    requires GoodLog(log + lines)
    ensures GoodLog(log)
  {
    assert forall i | 0 <= i < |log| :: log[i] == (log + lines)[i];
  }

  lemma {:induction false} InvHolds(steps: seq<Step>)
    requires GoodLog(Run(steps).log)
    ensures Inv(Run(steps), FirstCursor(steps))
    ensures FirstCursor(steps).None? ==> Run(steps).store.cursor.None?
  {
    if steps != [] {
      var rest, last := steps[..|steps| - 1], steps[|steps| - 1];
      var w, first := Run(rest), FirstCursor(rest);
      if last.Grow? {
        GoodPrefix(w.log, last.lines);
      }
      InvHolds(rest);
      if first.None? {
        if last.Poll? {
          FirstPoll(w.log, |w.log| - Min(last.tail, |w.log|), last.now, last.dies);
        }
      } else {
        var early, k, q :| Progress(w, first.value, early, k, q);
        match last
        case Grow(lines) => GrowStep(w, first.value, early, k, q, lines);
        case Poll(now, tail, dies) =>
          var store, early', q' := LaterPoll(w, first.value, early, k, q, now, dies);
          assert Run(steps) == World(w.log, store);
          assert Progress(Run(steps), first.value, early', k, q');
        case FailedPoll =>
      }
    }
  }

  lemma ProgressIsWithin(w: World, first: Stamp, early: seq<Entry>, k: nat, q: nat)
    requires Progress(w, first, early, k, q)
    ensures multiset(w.store.events) <= multiset(w.log)
  {
    WithinIsMultiset(early, w.log[..k]);
    assert w.log == w.log[..k] + w.log[k..q] + w.log[q..];
    assert multiset(w.log) == multiset(w.log[..k]) + multiset(w.log[k..q]) + multiset(w.log[q..]);
  }

  /** No line is ever stored more often than it occurs, whatever polls failed or died. */
  lemma NothingStoredTwice(steps: seq<Step>)
    requires GoodLog(Run(steps).log)
    ensures multiset(Run(steps).store.events) <= multiset(Run(steps).log)
  {
    InvHolds(steps);
    var w, first := Run(steps), FirstCursor(steps);
    if first.Some? {
      var early, k, q :| Progress(w, first.value, early, k, q);
      ProgressIsWithin(w, first.value, early, k, q);
    }
  }

  lemma NothingFrom(lines: seq<Entry>, at: Stamp)
    requires forall i | 0 <= i < |lines| :: lines[i].at < at
    ensures From(lines, at) == []
  {
    FromIsSuffix(lines, at, |lines|);
  }

  lemma NothingAfterLast(log: seq<Entry>, t: nat)
    requires Sorted(log) && t < |log|
    ensures From(log, log[|log| - 1].at + 1) == [] == From(log[t..|log|], log[|log| - 1].at + 1)
  {
    var at := log[|log| - 1].at + 1;
    assert forall i | 0 <= i < |log| :: log[i].at < at;
    NothingFrom(log, at);
    NothingFrom(log[t..|log|], at);
  }

  /** Every line newer than the first cursor is stored, once and in log order. */
  ghost predicate Complete(log: seq<Entry>, events: seq<Entry>, first: Stamp) {
    From(events, first + 1) == From(log, first + 1)
  }

  /** A first poll that completes leaves nothing newer than its own cursor. */
  lemma CompletedFirstPoll(log: seq<Entry>, t: nat, now: Stamp) returns (store: Store)
    requires GoodLog(log) && t <= |log|
    ensures store == Store([], None).Ingest(log[t..], now, None)
    ensures store.cursor.Some? <==> t < |log|
    ensures store.cursor.Some? ==> Complete(log, store.events, store.cursor.value)
  {
    store := FirstIngestAll(log, t, now);
    if t < |log| {
      NothingAfterLast(log, t);
    }
  }

  lemma CompletedLaterPoll(w: World, first: Stamp, early: seq<Entry>, k: nat, q: nat, now: Stamp) returns (store: Store)
    requires Progress(w, first, early, k, q) && GoodLog(w.log)
    ensures store == w.store.Ingest(From(w.log, w.store.cursor.value), now, None)
    ensures Complete(w.log, store.events, first)
  {
    var early', q';
    store, early', q' := LaterPoll(w, first, early, k, q, now, None);
    NewerEvents(w.log, first, early', k, q');
    assert w.log[k..q'] == w.log[k..];
  }

  lemma CompletedPoll(w: World, first: Option<Stamp>, now: Stamp, tail: nat) returns (store: Store)
    requires Inv(w, first) && GoodLog(w.log)
    ensures store == w.store.Ingest(Window(w.log, w.store.cursor, tail), now, None)
    ensures var at := if first.Some? then first else store.cursor;
            && (at.Some? ==> Complete(w.log, store.events, at.value))
            && (tail > 0 && w.log != [] ==> at.Some?)
  {
    if first.None? {
      store := CompletedFirstPoll(w.log, |w.log| - Min(tail, |w.log|), now);
    } else {
      var early, k, q :| Progress(w, first.value, early, k, q);
      store := CompletedLaterPoll(w, first.value, early, k, q, now);
    }
  }

  lemma LastPoll(steps: seq<Step>, store: Store)
    requires steps != [] && steps[|steps| - 1].Poll?
    requires var before, poll := Run(steps[..|steps| - 1]), steps[|steps| - 1];
             store == before.store.Ingest(Window(before.log, before.store.cursor, poll.tail), poll.now, poll.dies)
    ensures Run(steps) == World(Run(steps[..|steps| - 1]).log, store)
    ensures var first := FirstCursor(steps[..|steps| - 1]);
            FirstCursor(steps) == if first.Some? then first else store.cursor
  {
  }

  /**
   After any sequence of polls, failed polls and deaths between commits, a completed poll has stored every line newer
   than the first cursor exactly once and in log order; there is a first cursor unless the log or the tail was empty.
   */
  lemma ExactlyOnceInOrder(steps: seq<Step>)
    requires GoodLog(Run(steps).log)
    requires steps != [] && steps[|steps| - 1].Poll? && steps[|steps| - 1].dies.None?
    ensures var w, first := Run(steps), FirstCursor(steps);
            && (first.Some? ==> Complete(w.log, w.store.events, first.value))
            && (steps[|steps| - 1].tail > 0 && w.log != [] ==> first.Some?)
  {
    var rest, last := steps[..|steps| - 1], steps[|steps| - 1];
    assert Run(rest).log == Run(steps).log;
    InvHolds(rest);
    var store := CompletedPoll(Run(rest), FirstCursor(rest), last.now, last.tail);
    LastPoll(steps, store);
  }
}
