/**
 The bounded queue between two log readers and one consumer (dockfleet/core/logs.py). Lines are dropped when it is full;
 markers (a stream's end, a reader's error) are put back instead. Pushes run on the event loop in the order each reader
 made them, so a run is an interleaving of two readers' pushes with the consumer's turns.
 */
module StreamQueue {
  import opened Wrappers

  datatype Stream = Stdout | Stderr

  datatype Item =
    | Line(stream: Stream, text: string)
    | Failure(stream: Stream)
    | End(stream: Stream)

  predicate IsMarker(item: Item) {
    !item.Line?
  }

  // ---------------------------------------------------------------- one push

  /** What `_push` makes of the queue. */
  function Pushed(queue: seq<Item>, capacity: nat, item: Item): seq<Item>
    requires capacity >= 2 && |queue| <= capacity
  {
    if |queue| < capacity then queue + [item]
    else if !IsMarker(queue[0]) then queue[1..] + [item]
    else if IsMarker(item) then queue[2..] + [queue[0], item]
    else queue[1..] + [queue[0]]
  }

  /** The branch that drops an entry without looking at it, when that entry is a marker. */
  predicate Evicts(queue: seq<Item>, capacity: nat, item: Item)
    requires capacity >= 2
  {
    |queue| >= capacity && IsMarker(item) && IsMarker(queue[0]) && IsMarker(queue[1])
  }

  function Count(items: seq<Item>, item: Item): nat {
    multiset(items)[item]
  }

  lemma CountOfConcat(a: seq<Item>, b: seq<Item>, item: Item)
    ensures Count(a + b, item) == Count(a, item) + Count(b, item)
  {
  }

  lemma CountOfCons(items: seq<Item>, item: Item)
    requires items != []
    ensures Count(items, item) == AsNat(items[0] == item) + Count(items[1..], item)
  {
    assert items == [items[0]] + items[1..];
  }

  /** A push loses no marker, except that an evicting push loses exactly the second entry of the queue. */
  lemma MarkersAfterPush(queue: seq<Item>, capacity: nat, item: Item, marker: Item)
    requires capacity >= 2 && |queue| <= capacity && IsMarker(marker)
    ensures Count(Pushed(queue, capacity, item), marker) + AsNat(Evicts(queue, capacity, item) && queue[1] == marker)
         == Count(queue, marker) + AsNat(item == marker)
  {
    if |queue| >= capacity {
      CountOfCons(queue, marker);
      if IsMarker(queue[0]) && IsMarker(item) {
        CountOfCons(queue[1..], marker);
        assert queue[1..][1..] == queue[2..];
      }
    }
  }

  /** Exactly which pushes keep every marker: those that do not find two markers in front of a full queue. */
  lemma KeepsEveryMarkerExactly(queue: seq<Item>, capacity: nat, item: Item)
    requires capacity >= 2 && |queue| <= capacity
    ensures !Evicts(queue, capacity, item) <==>
              forall marker | IsMarker(marker) ::
                Count(Pushed(queue, capacity, item), marker) == Count(queue, marker) + AsNat(item == marker)
  {
    forall marker | IsMarker(marker) {
      MarkersAfterPush(queue, capacity, item, marker);
    }
    if Evicts(queue, capacity, item) {
      MarkersAfterPush(queue, capacity, item, queue[1]);
    }
  }

  // ---------------------------------------------------------------- sessions

  /** Every item pushed and every item the consumer took, in order, beside the queue itself. */
  datatype Session = Session(queue: seq<Item>, pushed: seq<Item>, delivered: seq<Item>, ended: bool)

  const OPENED := Session([], [], [], false)

  datatype Step = Push(item: Item) | Take | Finish

  /** A reader pushes lines, then an error marker if it failed, then its end marker, and nothing after that. */
  predicate MayPush(pushed: seq<Item>, item: Item) {
    && End(item.stream) !in pushed
    && (item.End? || Failure(item.stream) !in pushed)
  }

  predicate BothEnded(items: seq<Item>) {
    End(Stdout) in items && End(Stderr) in items
  }

  /** The consumer takes an item when there is one; with both readers finished and an empty queue it stops waiting. */
  predicate Enabled(session: Session, step: Step) {
    && !session.ended
    && match step
       case Push(item) => MayPush(session.pushed, item)
       case Take => session.queue != []
       case Finish => BothEnded(session.pushed) && session.queue == []
  }

  function Apply(session: Session, capacity: nat, step: Step): Session
    requires capacity >= 2 && |session.queue| <= capacity && Enabled(session, step)
  {
    match step
    case Push(item) => session.(queue := Pushed(session.queue, capacity, item), pushed := session.pushed + [item])
    case Take =>
      var item := session.queue[0];
      var delivered := session.delivered + [item];
      session.(queue := session.queue[1..], delivered := delivered, ended := item.Failure? || BothEnded(delivered))
    case Finish => session.(ended := true)
  }

  /** What a session has become after the steps, if every step could be taken. */
  function Run(capacity: nat, steps: seq<Step>): (session: Option<Session>)
    requires capacity >= 2
    ensures session.Some? ==> |session.value.queue| <= capacity
  {
    if steps == [] then Some(OPENED)
    else
      var before := Run(capacity, steps[..|steps| - 1]);
      if before.None? || !Enabled(before.value, steps[|steps| - 1]) then None
      else Some(Apply(before.value, capacity, steps[|steps| - 1]))
  }

  /** How many error markers evicting pushes threw away. */
  function Evicted(capacity: nat, steps: seq<Step>, marker: Item): nat
    requires capacity >= 2
  {
    if steps == [] then 0
    else
      var rest, last := steps[..|steps| - 1], steps[|steps| - 1];
      var before := Run(capacity, rest);
      Evicted(capacity, rest, marker) +
      AsNat(before.Some? && last.Push? && Evicts(before.value.queue, capacity, last.item)
          && before.value.queue[1] == marker)
  }

  // ---------------------------------------------------------------- markers over a session

  /** Every marker pushed is delivered, waiting or evicted, and was pushed once. */
  ghost predicate Accounted(s: Session, marker: Item, evicted: nat) {
    && Count(s.pushed, marker) == Count(s.delivered, marker) + Count(s.queue, marker) + evicted
    && Count(s.pushed, marker) <= 1
  }

  /** Once both readers ended, the last entry is an end marker; the consumer stops for one of its three reasons. */
  ghost predicate EndsProperly(s: Session) {
    && (BothEnded(s.pushed) && s.queue != [] ==> s.queue[|s.queue| - 1].End?)
    && (s.ended ==>
          || (s.queue == [] && BothEnded(s.pushed))
          || BothEnded(s.delivered)
          || Failure(Stdout) in s.delivered || Failure(Stderr) in s.delivered)
    && (BothEnded(s.delivered) ==> s.ended)
  }

  lemma AccountedStep(capacity: nat, s: Session, step: Step, marker: Item, evicted: nat)
    requires capacity >= 2 && |s.queue| <= capacity && Enabled(s, step)
    requires IsMarker(marker) && Accounted(s, marker, evicted)
    ensures Accounted(Apply(s, capacity, step), marker,
                      evicted + AsNat(step.Push? && Evicts(s.queue, capacity, step.item) && s.queue[1] == marker))
  {
    match step
    case Push(item) =>
      MarkersAfterPush(s.queue, capacity, item, marker);
      CountOfConcat(s.pushed, [item], marker);
      assert item == marker ==> marker !in s.pushed;
    case Take =>
      CountOfCons(s.queue, marker);
      CountOfConcat(s.delivered, [s.queue[0]], marker);
    case Finish =>
  }

  lemma EndsProperlyStep(capacity: nat, s: Session, step: Step)
    requires capacity >= 2 && |s.queue| <= capacity && Enabled(s, step) && EndsProperly(s)
    ensures EndsProperly(Apply(s, capacity, step))
  {
    var after := Apply(s, capacity, step);
    match step
    case Push(item) =>
      assert IsMarker(item) ==> after.queue[|after.queue| - 1] == item;
      assert item.stream == Stdout || item.stream == Stderr;
      assert !item.End? ==> End(item.stream) !in after.pushed;
    case Take =>
      var taken := s.queue[0];
      assert taken in after.delivered && (taken.stream == Stdout || taken.stream == Stderr);
      assert after.queue != [] ==> after.queue[|after.queue| - 1] == s.queue[|s.queue| - 1];
    case Finish =>
  }

  ghost predicate MarkersKept(capacity: nat, steps: seq<Step>, s: Session)
    requires capacity >= 2
  {
    && (forall marker | IsMarker(marker) :: Accounted(s, marker, Evicted(capacity, steps, marker)))
    && EndsProperly(s)
  }

  lemma MarkersKeptStep(capacity: nat, steps: seq<Step>, s: Session, step: Step)
    requires capacity >= 2 && Run(capacity, steps) == Some(s) && MarkersKept(capacity, steps, s) && Enabled(s, step)
    ensures MarkersKept(capacity, steps + [step], Apply(s, capacity, step))
  {
    assert (steps + [step])[..|steps + [step]| - 1] == steps;
    EndsProperlyStep(capacity, s, step);
    forall marker | IsMarker(marker)
      ensures Accounted(Apply(s, capacity, step), marker, Evicted(capacity, steps + [step], marker))
    {
      AccountedStep(capacity, s, step, marker, Evicted(capacity, steps, marker));
    }
  }

  lemma {:induction false} MarkersAreKept(capacity: nat, steps: seq<Step>)
    requires capacity >= 2 && Run(capacity, steps).Some?
    ensures MarkersKept(capacity, steps, Run(capacity, steps).value)
  {
    if steps != [] {
      var rest, last := steps[..|steps| - 1], steps[|steps| - 1];
      MarkersAreKept(capacity, rest);
      MarkersKeptStep(capacity, rest, Run(capacity, rest).value, last);
      assert rest + [last] == steps;
    }
  }

  /**
   Exactly when the consumer sees an error before it ends: some error marker was pushed and not evicted. So without an
   evicting push every reader's error reaches the consumer.
   */
  lemma ErrorSeenExactly(capacity: nat, steps: seq<Step>)
    requires capacity >= 2 && Run(capacity, steps).Some? && Run(capacity, steps).value.ended
    ensures var s := Run(capacity, steps).value;
            (exists stream :: Failure(stream) in s.delivered) <==>
              exists stream :: Failure(stream) in s.pushed && Evicted(capacity, steps, Failure(stream)) == 0
  {
    MarkersAreKept(capacity, steps);
    var s := Run(capacity, steps).value;
    forall marker | IsMarker(marker)
      ensures Count(s.pushed, marker) ==
              Count(s.delivered, marker) + Count(s.queue, marker) + Evicted(capacity, steps, marker)
      ensures Count(s.pushed, marker) <= 1
    {
      assert Accounted(s, marker, Evicted(capacity, steps, marker));
    }
    if BothEnded(s.delivered) {
      EmptyAfterBothEnds(s);
    }
    forall stream: Stream
      ensures s.queue == [] ==>
                (Failure(stream) in s.delivered <==>
                 Failure(stream) in s.pushed && Evicted(capacity, steps, Failure(stream)) == 0)
      ensures Failure(stream) in s.delivered ==>
                Failure(stream) in s.pushed && Evicted(capacity, steps, Failure(stream)) == 0
    {
      assert Accounted(s, Failure(stream), Evicted(capacity, steps, Failure(stream)));
    }
  }

  lemma EmptyAfterBothEnds(s: Session)
    requires EndsProperly(s) && BothEnded(s.delivered)
    requires forall marker | IsMarker(marker) ::
               Count(s.delivered, marker) + Count(s.queue, marker) <= Count(s.pushed, marker) <= 1
    ensures s.queue == []
  {
    forall stream: Stream
      ensures End(stream) in s.pushed && End(stream) !in s.queue
    {
      assert stream == Stdout || stream == Stderr;
      assert End(stream) in s.delivered;
      assert Count(s.delivered, End(stream)) + Count(s.queue, End(stream)) <= Count(s.pushed, End(stream)) <= 1;
    }
  }

  // ---------------------------------------------------------------- when a session ends

  /** Only the last delivered item can be an error marker or the second end marker. */
  ghost predicate StopsAtTheEnd(delivered: seq<Item>) {
    delivered != [] ==>
      var n := |delivered| - 1;
      && (forall i | 0 <= i < n :: !delivered[i].Failure?)
      && !BothEnded(delivered[..n])
  }

  /** The consumer has just taken an error marker, or the second end marker. */
  ghost predicate TookTheEnd(delivered: seq<Item>) {
    BothEnded(delivered) || (delivered != [] && delivered[|delivered| - 1].Failure?)
  }

  lemma EndedStep(capacity: nat, s: Session, step: Step)
    requires capacity >= 2 && |s.queue| <= capacity && Enabled(s, step)
    requires StopsAtTheEnd(s.delivered) && !TookTheEnd(s.delivered)
    ensures var after := Apply(s, capacity, step);
            StopsAtTheEnd(after.delivered) && (after.ended <==> step == Finish || TookTheEnd(after.delivered))
  {
    if step.Take? {
      var after := Apply(s, capacity, step);
      assert after.delivered[..|after.delivered| - 1] == s.delivered;
      forall i | 0 <= i < |s.delivered|
        ensures !s.delivered[i].Failure?
      {
      }
    }
  }

  /**
   Exactly when a session has ended: the consumer has just taken an error marker or the second end marker, or has found
   the queue empty with both readers finished. After an error marker nothing more is delivered.
   */
  lemma {:induction false} EndedExactly(capacity: nat, steps: seq<Step>)
    requires capacity >= 2 && Run(capacity, steps).Some?
    ensures var s := Run(capacity, steps).value;
            && StopsAtTheEnd(s.delivered)
            && (s.ended <==> (steps != [] && steps[|steps| - 1] == Finish) || TookTheEnd(s.delivered))
            && (s.ended ==> steps != [] && !steps[|steps| - 1].Push?)
  {
    if steps != [] {
      var n := |steps| - 1;
      EndedExactly(capacity, steps[..n]);
      EndedStep(capacity, Run(capacity, steps[..n]).value, steps[n]);
    }
  }

  /** Once both readers have finished, the consumer comes to its end: in at most one turn more than entries wait. */
  lemma ConsumerGetsToTheEnd(capacity: nat, steps: seq<Step>) returns (turns: seq<Step>)
    requires capacity >= 2 && Run(capacity, steps).Some? && !Run(capacity, steps).value.ended
    requires BothEnded(Run(capacity, steps).value.pushed)
    ensures |turns| <= |Run(capacity, steps).value.queue| + 1
    ensures forall step | step in turns :: step == Take || step == Finish
    ensures Run(capacity, steps + turns).Some? && Run(capacity, steps + turns).value.ended
    decreases |Run(capacity, steps).value.queue|
  {
    var s := Run(capacity, steps).value;
    var step := if s.queue == [] then Finish else Take;
    assert (steps + [step])[..|steps|] == steps;
    turns := [step];
    if !Run(capacity, steps + [step]).value.ended {
      var more := ConsumerGetsToTheEnd(capacity, steps + [step]);
      turns := [step] + more;
      assert steps + turns == steps + [step] + more;
    }
  }

  /** While the queue has room for everything pushed, nothing is lost and nothing overtakes: first in, first out. */
  lemma {:induction false} FirstInFirstOut(capacity: nat, steps: seq<Step>)
    requires capacity >= 2 && Run(capacity, steps).Some? && |Run(capacity, steps).value.pushed| <= capacity
    ensures var s := Run(capacity, steps).value; s.delivered + s.queue == s.pushed
  {
    if steps != [] {
      var n := |steps| - 1;
      FirstInFirstOut(capacity, steps[..n]);
      var before := Run(capacity, steps[..n]).value;
      if steps[n].Take? {
        assert before.delivered + before.queue == before.delivered + [before.queue[0]] + before.queue[1..];
      } else if steps[n].Push? {
        assert before.delivered + (before.queue + [steps[n].item]) == before.delivered + before.queue + [steps[n].item];
      }
    }
  }

  // ---------------------------------------------------------------- lines over a session

  /** `a` can be had from `b` by leaving entries out. */
  ghost predicate Subsequence<T>(a: seq<T>, b: seq<T>) {
    || a == []
    || (&& b != []
        && ((a[|a| - 1] == b[|b| - 1] && Subsequence(a[..|a| - 1], b[..|b| - 1]))
            || Subsequence(a, b[..|b| - 1])))
  }

  lemma SubsequenceGrows<T>(a: seq<T>, b: seq<T>, x: T)
    requires Subsequence(a, b)
    ensures Subsequence(a, b + [x]) && Subsequence(a + [x], b + [x])
  {
    assert (b + [x])[..|b + [x]| - 1] == b;
    assert (a + [x])[..|a + [x]| - 1] == a;
  }

  lemma WithoutLast<T>(front: seq<T>, x: T, back: seq<T>)
    ensures var a := front + [x] + back;
            if back == [] then a[..|a| - 1] == front == front + back
            else
              && a[|a| - 1] == (front + back)[|front + back| - 1]
              && a[..|a| - 1] == front + [x] + back[..|back| - 1]
              && (front + back)[..|front + back| - 1] == front + back[..|back| - 1]
  {
  }

  lemma {:induction false} SubsequenceShrinks<T>(front: seq<T>, x: T, back: seq<T>, b: seq<T>)
    requires Subsequence(front + [x] + back, b)
    ensures Subsequence(front + back, b)
    decreases |b|
  {
    var a, rest := front + [x] + back, b[..|b| - 1];
    WithoutLast(front, x, back);
    if Subsequence(a, rest) {
      SubsequenceShrinks(front, x, back, rest);
    } else if back != [] {
      SubsequenceShrinks(front, x, back[..|back| - 1], rest);
    }
  }

  /** The lines of one stream. */
  function LinesOf(items: seq<Item>, stream: Stream): seq<string> {
    if items == [] then []
    else
      var last := items[|items| - 1];
      LinesOf(items[..|items| - 1], stream) + if last.Line? && last.stream == stream then [last.text] else []
  }

  lemma {:induction false} LinesOfConcat(a: seq<Item>, b: seq<Item>, stream: Stream)
    ensures LinesOf(a + b, stream) == LinesOf(a, stream) + LinesOf(b, stream)
  {
    if b == [] {
      assert a + b == a;
    } else {
      LinesOfConcat(a, b[..|b| - 1], stream);
      assert (a + b)[..|a + b| - 1] == a + b[..|b| - 1];
    }
  }

  lemma LinesOfOne(item: Item, stream: Stream)
    ensures LinesOf([item], stream) == if item.Line? && item.stream == stream then [item.text] else []
  {
    assert [item][..0] == [];
  }

  /** The entry a push throws away, and the entry it adds: at most one each. */
  function Thrown(queue: seq<Item>, capacity: nat, item: Item): seq<Item>
    requires capacity >= 2
  {
    if |queue| < capacity then []
    else if !IsMarker(queue[0]) then [queue[0]]
    else if IsMarker(item) then [queue[1]]
    else []
  }

  function Added(queue: seq<Item>, capacity: nat, item: Item): seq<Item>
    requires capacity >= 2
  {
    if |queue| >= capacity && IsMarker(queue[0]) && !IsMarker(item) then [] else [item]
  }

  lemma LinesOfMarker(items: seq<Item>, marker: Item, stream: Stream)
    requires IsMarker(marker)
    ensures LinesOf([marker] + items, stream) == LinesOf(items, stream) == LinesOf(items + [marker], stream)
  {
    LinesOfConcat([marker], items, stream);
    LinesOfConcat(items, [marker], stream);
    LinesOfOne(marker, stream);
  }

  lemma LinesOfFullPush(queue: seq<Item>, capacity: nat, item: Item, stream: Stream)
    requires capacity >= 2 && |queue| == capacity && IsMarker(queue[0]) && IsMarker(item)
    ensures LinesOf([queue[1]], stream) + LinesOf(Pushed(queue, capacity, item), stream) == LinesOf(queue, stream)
  {
    var head, second, others := queue[0], queue[1], queue[2..];
    assert queue == [head] + ([second] + others);
    LinesOfMarker([second] + others, head, stream);
    LinesOfConcat([second], others, stream);
    assert Pushed(queue, capacity, item) == others + [head] + [item];
    LinesOfMarker(others, head, stream);
    LinesOfMarker(others + [head], item, stream);
  }

  lemma LinesOfLinePush(queue: seq<Item>, item: Item, stream: Stream)
    requires queue != []
    ensures LinesOf([queue[0]], stream) + LinesOf(queue[1..] + [item], stream)
         == LinesOf(queue, stream) + LinesOf([item], stream)
  {
    assert queue == [queue[0]] + queue[1..];
    LinesOfConcat([queue[0]], queue[1..], stream);
    LinesOfConcat(queue[1..], [item], stream);
  }

  lemma LinesOfPutBack(queue: seq<Item>, stream: Stream)
    requires queue != [] && IsMarker(queue[0])
    ensures LinesOf(queue[1..] + [queue[0]], stream) == LinesOf(queue, stream)
  {
    assert queue == [queue[0]] + queue[1..];
    LinesOfMarker(queue[1..], queue[0], stream);
  }

  /** Line by line, what was thrown away stood in front of what stays, and what was added stands behind it. */
  lemma LinesAfterPush(queue: seq<Item>, capacity: nat, item: Item, stream: Stream)
    requires capacity >= 2 && |queue| <= capacity
    ensures LinesOf(Thrown(queue, capacity, item), stream) + LinesOf(Pushed(queue, capacity, item), stream)
         == LinesOf(queue, stream) + LinesOf(Added(queue, capacity, item), stream)
  {
    if |queue| < capacity {
      LinesOfConcat(queue, [item], stream);
    } else if !IsMarker(queue[0]) {
      LinesOfLinePush(queue, item, stream);
    } else if IsMarker(item) {
      LinesOfOne(item, stream);
      LinesOfFullPush(queue, capacity, item, stream);
    } else {
      LinesOfPutBack(queue, stream);
    }
  }

  /** Delivered, then waiting: a subsequence of what was pushed. */
  ghost predicate InOrder(s: Session, stream: Stream) {
    Subsequence(LinesOf(s.delivered, stream) + LinesOf(s.queue, stream), LinesOf(s.pushed, stream))
  }

  lemma SubsequenceGrowsBehind<T>(front: seq<T>, waiting: seq<T>, pushed: seq<T>, own: seq<T>, added: seq<T>)
    requires Subsequence(front + waiting, pushed) && |own| <= 1 && (added == own || added == [])
    ensures Subsequence(front + (waiting + added), pushed + own)
  {
    assert added == [] ==> waiting + added == waiting;
    if own == [] {
      assert pushed + own == pushed;
    } else {
      SubsequenceGrows(front + waiting, pushed, own[0]);
      assert own == [own[0]];
      assert front + waiting + own == front + (waiting + own);
    }
  }

  lemma SubsequenceLosesFront<T>(front: seq<T>, thrown: seq<T>, after: seq<T>, pushed: seq<T>)
    requires Subsequence(front + (thrown + after), pushed) && |thrown| <= 1
    ensures Subsequence(front + after, pushed)
  {
    if thrown == [] {
      assert thrown + after == after;
    } else {
      assert front + (thrown + after) == front + [thrown[0]] + after;
      SubsequenceShrinks(front, thrown[0], after, pushed);
    }
  }

  lemma InOrderPush(capacity: nat, s: Session, item: Item, stream: Stream)
    requires capacity >= 2 && |s.queue| <= capacity && Enabled(s, Push(item)) && InOrder(s, stream)
    ensures InOrder(Apply(s, capacity, Push(item)), stream)
  {
    var thrown := Thrown(s.queue, capacity, item);
    LinesAfterPush(s.queue, capacity, item, stream);
    LinesOfConcat(s.pushed, [item], stream);
    LinesOfOne(item, stream);
    if thrown != [] {
      LinesOfOne(thrown[0], stream);
    }
    var delivered, pushed := LinesOf(s.delivered, stream), LinesOf(s.pushed, stream);
    SubsequenceGrowsBehind(delivered, LinesOf(s.queue, stream), pushed, LinesOf([item], stream),
                           LinesOf(Added(s.queue, capacity, item), stream));
    SubsequenceLosesFront(delivered, LinesOf(thrown, stream), LinesOf(Pushed(s.queue, capacity, item), stream),
                          pushed + LinesOf([item], stream));
  }

  lemma InOrderStep(capacity: nat, s: Session, step: Step, stream: Stream)
    requires capacity >= 2 && |s.queue| <= capacity && Enabled(s, step) && InOrder(s, stream)
    ensures InOrder(Apply(s, capacity, step), stream)
  {
    if step.Push? {
      InOrderPush(capacity, s, step.item, stream);
    } else if step.Take? {
      var taken, rest := [s.queue[0]], s.queue[1..];
      assert s.queue == taken + rest;
      LinesOfConcat(taken, rest, stream);
      LinesOfConcat(s.delivered, taken, stream);
      assert LinesOf(s.delivered, stream) + (LinesOf(taken, stream) + LinesOf(rest, stream))
          == LinesOf(s.delivered, stream) + LinesOf(taken, stream) + LinesOf(rest, stream);
    }
  }

  /** The delivered lines of each stream, then the waiting ones, are an in-order subsequence of those pushed. */
  lemma {:induction false} LinesStayInOrder(capacity: nat, steps: seq<Step>, stream: Stream)
    requires capacity >= 2 && Run(capacity, steps).Some?
    ensures InOrder(Run(capacity, steps).value, stream)
  {
    if steps != [] {
      var rest, last := steps[..|steps| - 1], steps[|steps| - 1];
      LinesStayInOrder(capacity, rest, stream);
      InOrderStep(capacity, Run(capacity, rest).value, last, stream);
    }
  }

  // ---------------------------------------------------------------- end markers over a session

  /** No line of a stream comes after its end marker. */
  ghost predicate EndsLast(items: seq<Item>) {
    forall i, j | 0 <= i < j < |items| && items[i].End? && items[j].Line? :: items[i].stream != items[j].stream
  }

  ghost predicate EndsLastThroughout(s: Session) {
    && EndsLast(s.delivered) && EndsLast(s.queue)
    && (forall item | item in s.queue && item.Line? :: End(item.stream) !in s.delivered)
    && (forall item | item in s.queue || item in s.delivered :: item in s.pushed)
  }

  lemma EndsLastAppended(items: seq<Item>, item: Item)
    requires EndsLast(items) && (item.Line? ==> End(item.stream) !in items)
    ensures EndsLast(items + [item])
  {
    var all := items + [item];
    forall i, j | 0 <= i < j < |all| && all[i].End? && all[j].Line?
      ensures all[i].stream != all[j].stream
    {
      assert all[i] == items[i] && items[i] == End(items[i].stream);
    }
  }

  lemma EndsLastDropped(items: seq<Item>)
    requires EndsLast(items) && items != []
    ensures EndsLast(items[1..])
  {
  }

  lemma EndsLastPush(capacity: nat, s: Session, item: Item)
    requires capacity >= 2 && |s.queue| <= capacity && Enabled(s, Push(item)) && EndsLastThroughout(s)
    ensures EndsLastThroughout(Apply(s, capacity, Push(item)))
  {
    var after := Apply(s, capacity, Push(item));
    assert forall x | x in after.queue :: x in s.queue || x == item;
    if |s.queue| < capacity {
      EndsLastAppended(s.queue, item);
    } else {
      EndsLastDropped(s.queue);
      if !IsMarker(s.queue[0]) {
        EndsLastAppended(s.queue[1..], item);
      } else if IsMarker(item) {
        EndsLastDropped(s.queue[1..]);
        assert s.queue[1..][1..] == s.queue[2..];
        EndsLastAppended(s.queue[2..], s.queue[0]);
        EndsLastAppended(s.queue[2..] + [s.queue[0]], item);
        assert after.queue == s.queue[2..] + [s.queue[0]] + [item];
      } else {
        EndsLastAppended(s.queue[1..], s.queue[0]);
      }
    }
  }

  lemma EndsLastTake(capacity: nat, s: Session)
    requires capacity >= 2 && |s.queue| <= capacity && Enabled(s, Take) && EndsLastThroughout(s)
    ensures EndsLastThroughout(Apply(s, capacity, Take))
  {
    EndsLastAppended(s.delivered, s.queue[0]);
    EndsLastDropped(s.queue);
    forall item | item in s.queue[1..] && item.Line?
      ensures End(item.stream) !in s.delivered + [s.queue[0]]
    {
      var j :| 0 <= j < |s.queue[1..]| && s.queue[1..][j] == item;
      assert s.queue[j + 1] == item;
    }
  }

  lemma {:induction false} EndsComeLast(capacity: nat, steps: seq<Step>)
    requires capacity >= 2 && Run(capacity, steps).Some?
    ensures EndsLastThroughout(Run(capacity, steps).value)
  {
    if steps != [] {
      var rest, last := steps[..|steps| - 1], steps[|steps| - 1];
      EndsComeLast(capacity, rest);
      var s := Run(capacity, rest).value;
      match last
      case Push(item) => EndsLastPush(capacity, s, item);
      case Take => EndsLastTake(capacity, s);
      case Finish =>
    }
  }

  // ---------------------------------------------------------------- sessions without reader errors

  lemma {:induction false} NothingEvictedWithoutErrors(capacity: nat, steps: seq<Step>, marker: Item)
    requires capacity >= 2 && Run(capacity, steps).Some?
    requires forall stream :: Failure(stream) !in Run(capacity, steps).value.pushed
    ensures Evicted(capacity, steps, marker) == 0
  {
    if steps != [] {
      var rest, last := steps[..|steps| - 1], steps[|steps| - 1];
      var s := Run(capacity, rest).value;
      assert forall item | item in s.pushed :: item in Run(capacity, steps).value.pushed;
      NothingEvictedWithoutErrors(capacity, rest, marker);
      MarkersAreKept(capacity, rest);
      EndsComeLast(capacity, rest);
      if last.Push? && |s.queue| >= capacity {
        OneMarkerWaits(s, last.item);
      }
    }
  }

  /** While a reader still pushes, two waiting markers would be the other stream's end marker twice. */
  lemma OneMarkerWaits(s: Session, item: Item)
    requires |s.queue| >= 2 && MayPush(s.pushed, item)
    requires forall stream :: Failure(stream) !in s.pushed
    requires forall waiting | waiting in s.queue :: waiting in s.pushed
    requires forall marker | IsMarker(marker) :: Count(s.queue, marker) <= 1
    ensures !(IsMarker(s.queue[0]) && IsMarker(s.queue[1]))
  {
    var a, b := s.queue[0], s.queue[1];
    assert a in s.pushed && b in s.pushed;
    assert IsMarker(a) ==> a == End(a.stream) && a.stream != item.stream;
    assert IsMarker(b) ==> b == End(b.stream) && b.stream != item.stream;
    assert IsMarker(a) && IsMarker(b) ==> a == b by {
      assert a.stream == Stdout || a.stream == Stderr;
      assert b.stream == Stdout || b.stream == Stderr;
      assert item.stream == Stdout || item.stream == Stderr;
    }
    assert s.queue == [a] + [b] + s.queue[2..];
    assert a == b ==> Count(s.queue, a) >= 2;
  }

  /** Without reader errors both end markers are delivered, each after the last delivered line of its own stream. */
  lemma BothEndsArrive(capacity: nat, steps: seq<Step>)
    requires capacity >= 2 && Run(capacity, steps).Some? && Run(capacity, steps).value.ended
    requires forall stream :: Failure(stream) !in Run(capacity, steps).value.pushed
    ensures var s := Run(capacity, steps).value;
            BothEnded(s.delivered) && EndsLast(s.delivered)
  {
    MarkersAreKept(capacity, steps);
    EndsComeLast(capacity, steps);
    var s := Run(capacity, steps).value;
    forall stream
      ensures Failure(stream) !in s.delivered
      ensures s.queue == [] && End(stream) in s.pushed ==> End(stream) in s.delivered
    {
      NothingEvictedWithoutErrors(capacity, steps, End(stream));
      assert Accounted(s, End(stream), 0);
    }
  }

  // ---------------------------------------------------------------- a session that loses its only error marker

  const NOISE := Line(Stderr, "noise")

  function Noise(n: nat): seq<Item> {
    seq(n, _ => NOISE)
  }

  function Pushes(n: nat): seq<Step> {
    seq(n, _ => Push(NOISE))
  }

  lemma RunOn(capacity: nat, steps: seq<Step>, step: Step)
    requires capacity >= 2 && Run(capacity, steps).Some? && Enabled(Run(capacity, steps).value, step)
    ensures Run(capacity, steps + [step]) == Some(Apply(Run(capacity, steps).value, capacity, step))
  {
    assert (steps + [step])[..|steps + [step]| - 1] == steps;
  }

  /** A session `n` pushes of a stderr line later: `queue` is what they make of the queue. */
  ghost predicate AfterNoise(before: Session, after: Session, queue: seq<Item>) {
    && after.queue == queue && after.delivered == before.delivered && after.ended == before.ended
    && forall marker | IsMarker(marker) :: marker in after.pushed <==> marker in before.pushed
  }

  lemma {:induction false} NoiseFills(capacity: nat, steps: seq<Step>, n: nat) returns (after: Session)
    requires capacity >= 2 && Run(capacity, steps).Some?
    requires var s := Run(capacity, steps).value; !s.ended && MayPush(s.pushed, NOISE) && |s.queue| + n <= capacity
    ensures var s := Run(capacity, steps).value;
            Run(capacity, steps + Pushes(n)) == Some(after) && AfterNoise(s, after, s.queue + Noise(n))
  {
    var s := Run(capacity, steps).value;
    if n == 0 {
      after := s;
      assert steps + Pushes(0) == steps && s.queue + Noise(0) == s.queue;
    } else {
      after := NoiseFills(capacity, steps, n - 1);
      RunOn(capacity, steps + Pushes(n - 1), Push(NOISE));
      after := Apply(after, capacity, Push(NOISE));
      assert steps + Pushes(n) == steps + Pushes(n - 1) + [Push(NOISE)];
      assert s.queue + Noise(n) == s.queue + Noise(n - 1) + [NOISE];
    }
  }

  /** Lines at the front of a full queue are replaced, oldest first; what stood behind them comes to the front. */
  lemma {:induction false} NoiseRotates(capacity: nat, steps: seq<Step>, lines: nat, rest: seq<Item>, n: nat)
    returns (after: Session)
    requires capacity >= 2 && Run(capacity, steps).Some? && n <= lines
    requires var s := Run(capacity, steps).value;
             !s.ended && MayPush(s.pushed, NOISE) && s.queue == Noise(lines) + rest && |s.queue| == capacity
    ensures var s := Run(capacity, steps).value;
            Run(capacity, steps + Pushes(n)) == Some(after) && AfterNoise(s, after, Noise(lines - n) + rest + Noise(n))
  {
    var s := Run(capacity, steps).value;
    if n == 0 {
      after := s;
      assert steps + Pushes(0) == steps && Noise(lines - 0) + rest + Noise(0) == s.queue;
    } else {
      after := NoiseRotates(capacity, steps, lines, rest, n - 1);
      RunOn(capacity, steps + Pushes(n - 1), Push(NOISE));
      assert after.queue[0] == NOISE;
      assert after.queue[1..] + [NOISE] == Noise(lines - n) + rest + Noise(n);
      after := Apply(after, capacity, Push(NOISE));
      assert steps + Pushes(n) == steps + Pushes(n - 1) + [Push(NOISE)];
    }
  }

  function Takes(n: nat): seq<Step> {
    seq(n, _ => Take)
  }

  lemma LineIsTaken(capacity: nat, steps: seq<Step>, s: Session, lines: nat, rest: seq<Item>) returns (after: Session)
    requires capacity >= 2 && Run(capacity, steps) == Some(s) && lines > 0
    requires !s.ended && s.queue == Noise(lines) + rest && forall item | item in s.delivered :: item == NOISE
    ensures Run(capacity, steps + [Take]) == Some(after)
    ensures !after.ended && after.queue == Noise(lines - 1) + rest && after.pushed == s.pushed
    ensures forall item | item in after.delivered :: item == NOISE
  {
    RunOn(capacity, steps, Take);
    assert s.queue[0] == NOISE && s.queue[1..] == Noise(lines - 1) + rest;
    after := Apply(s, capacity, Take);
    assert End(Stdout) !in after.delivered;
  }

  lemma {:induction false} LinesAreTaken(capacity: nat, steps: seq<Step>, lines: nat, rest: seq<Item>, n: nat)
    returns (after: Session)
    requires capacity >= 2 && Run(capacity, steps).Some? && n <= lines
    requires var s := Run(capacity, steps).value;
             !s.ended && s.queue == Noise(lines) + rest && forall item | item in s.delivered :: item == NOISE
    ensures Run(capacity, steps + Takes(n)) == Some(after)
    ensures !after.ended && after.queue == Noise(lines - n) + rest && after.pushed == Run(capacity, steps).value.pushed
    ensures forall item | item in after.delivered :: item == NOISE
  {
    if n == 0 {
      after := Run(capacity, steps).value;
      assert steps + Takes(0) == steps;
    } else {
      var before := LinesAreTaken(capacity, steps, lines, rest, n - 1);
      after := LineIsTaken(capacity, steps + Takes(n - 1), before, lines - (n - 1), rest);
      assert steps + Takes(n) == steps + Takes(n - 1) + [Take];
    }
  }

  /** Stdout fails, and stderr lines fill the queue but for one place. */
  lemma ErrorThenLines(capacity: nat) returns (steps: seq<Step>, s: Session)
    requires capacity >= 2
    ensures Run(capacity, steps) == Some(s) && !s.ended && s.delivered == []
    ensures s.queue == [Failure(Stdout)] + Noise(capacity - 2)
    ensures forall marker | IsMarker(marker) :: marker in s.pushed <==> marker == Failure(Stdout)
  {
    RunOn(capacity, [], Push(Failure(Stdout)));
    var before := Apply(OPENED, capacity, Push(Failure(Stdout)));
    assert before.queue == [Failure(Stdout)] && before.pushed == [Failure(Stdout)];
    s := NoiseFills(capacity, [] + [Push(Failure(Stdout))], capacity - 2);
    steps := [] + [Push(Failure(Stdout))] + Pushes(capacity - 2);
  }

  /** Stdout ends: its end marker takes the last place. */
  lemma ErrorThenLinesThenEnd(capacity: nat) returns (steps: seq<Step>, s: Session)
    requires capacity >= 2
    ensures Run(capacity, steps) == Some(s) && !s.ended && s.delivered == []
    ensures s.queue == [Failure(Stdout)] + (Noise(capacity - 2) + [End(Stdout)])
    ensures forall marker | IsMarker(marker) ::
              marker in s.pushed <==> marker == Failure(Stdout) || marker == End(Stdout)
  {
    var before;
    steps, before := ErrorThenLines(capacity);
    RunOn(capacity, steps, Push(End(Stdout)));
    steps, s := steps + [Push(End(Stdout))], Apply(before, capacity, Push(End(Stdout)));
  }

  /** One more stderr line is dropped, and the error marker goes to the back, behind the end marker. */
  lemma ErrorPutBack(capacity: nat) returns (steps: seq<Step>, s: Session)
    requires capacity >= 2
    ensures Run(capacity, steps) == Some(s) && !s.ended && s.delivered == []
    ensures s.queue == Noise(capacity - 2) + [End(Stdout), Failure(Stdout)]
    ensures forall marker | IsMarker(marker) ::
              marker in s.pushed <==> marker == Failure(Stdout) || marker == End(Stdout)
  {
    var before;
    steps, before := ErrorThenLinesThenEnd(capacity);
    assert before.queue[0] == Failure(Stdout) && before.queue[1..] == Noise(capacity - 2) + [End(Stdout)];
    RunOn(capacity, steps, Push(NOISE));
    steps, s := steps + [Push(NOISE)], Apply(before, capacity, Push(NOISE));
    assert s.queue == Noise(capacity - 2) + [End(Stdout)] + [Failure(Stdout)];
  }

  /** More stderr lines replace the ones in front, until the end marker and the error marker are the oldest entries. */
  lemma EndMarkerOvertakesError(capacity: nat) returns (steps: seq<Step>, s: Session)
    requires capacity >= 2
    ensures Run(capacity, steps) == Some(s) && !s.ended && s.delivered == []
    ensures s.queue == [End(Stdout), Failure(Stdout)] + Noise(capacity - 2)
    ensures Failure(Stdout) in s.pushed && Failure(Stderr) !in s.pushed && End(Stderr) !in s.pushed
  {
    var before;
    steps, before := ErrorPutBack(capacity);
    s := NoiseRotates(capacity, steps, capacity - 2, [End(Stdout), Failure(Stdout)], capacity - 2);
    steps := steps + Pushes(capacity - 2);
    assert Noise(0) + [End(Stdout), Failure(Stdout)] == [End(Stdout), Failure(Stdout)];
  }

  /**
   The code does not always deliver an error: for every capacity, so also for the 1000 it uses, there is a session in
   which a reader fails, the consumer takes every entry of the queue, and ends without having seen an error marker.
   */
  lemma ErrorMayBeLost(capacity: nat) returns (steps: seq<Step>, s: Session)
    requires capacity >= 2
    ensures Run(capacity, steps) == Some(s) && s.ended && s.queue == []
    ensures Failure(Stdout) in s.pushed && BothEnded(s.delivered)
    ensures forall stream :: Failure(stream) !in s.delivered
  {
    steps, s := EndMarkerOvertakesError(capacity);
    RunOn(capacity, steps, Push(End(Stderr)));
    assert s.queue[0] == End(Stdout) && s.queue[2..] == Noise(capacity - 2);
    steps, s := steps + [Push(End(Stderr))], Apply(s, capacity, Push(End(Stderr)));
    assert s.queue == Noise(capacity - 2) + [End(Stdout), End(Stderr)];
    s := LinesAreTaken(capacity, steps, capacity - 2, [End(Stdout), End(Stderr)], capacity - 2);
    steps := steps + Takes(capacity - 2);
    assert s.queue == [End(Stdout), End(Stderr)];
    steps, s := BothEndsAreTaken(capacity, steps);
  }

  lemma BothEndsAreTaken(capacity: nat, before: seq<Step>) returns (steps: seq<Step>, s: Session)
    requires capacity >= 2 && Run(capacity, before).Some?
    requires var s := Run(capacity, before).value;
             !s.ended && s.queue == [End(Stdout), End(Stderr)] && forall item | item in s.delivered :: item == NOISE
    ensures Run(capacity, steps) == Some(s) && s.ended && s.queue == [] && BothEnded(s.delivered)
    ensures s.pushed == Run(capacity, before).value.pushed && forall stream :: Failure(stream) !in s.delivered
  {
    s := Run(capacity, before).value;
    assert End(Stdout) !in s.delivered && End(Stderr) !in s.delivered;
    RunOn(capacity, before, Take);
    s := Apply(s, capacity, Take);
    assert !s.ended && s.queue == [End(Stderr)];
    RunOn(capacity, before + [Take], Take);
    steps, s := before + [Take] + [Take], Apply(s, capacity, Take);
  }

  // ---------------------------------------------------------------- what a full queue loses

  /** The entry a push on a full queue throws away. */
  function Lost(queue: seq<Item>, item: Item): Item
    requires |queue| >= 2
  {
    if !IsMarker(queue[0]) then queue[0] else if IsMarker(item) then queue[1] else item
  }

  /** A push on a full queue throws away that one entry, and nothing else. */
  lemma FullPushLosesOne(queue: seq<Item>, capacity: nat, item: Item)
    requires capacity >= 2 && |queue| == capacity
    ensures multiset(Pushed(queue, capacity, item)) + multiset{Lost(queue, item)} == multiset(queue) + multiset{item}
  {
    assert queue == [queue[0]] + queue[1..];
    if IsMarker(queue[0]) && IsMarker(item) {
      assert queue == [queue[0]] + [queue[1]] + queue[2..];
      assert Pushed(queue, capacity, item) == queue[2..] + [queue[0], item];
    }
  }

  /**
   Exactly when a push on a full queue drops the oldest entry and nothing else, as the documentation says: with a line
   at the head, which then leaves the rest and the new item in order. With a marker at the head the second entry is lost
   to a marker, so the oldest only if the two are equal, and a line is lost itself.
   */
  lemma OldestIsDroppedExactly(queue: seq<Item>, capacity: nat, item: Item)
    requires capacity >= 2 && |queue| == capacity
    ensures multiset(Pushed(queue, capacity, item)) == multiset(queue[1..]) + multiset{item}
       <==> !IsMarker(queue[0]) || (IsMarker(item) && queue[1] == queue[0])
    ensures !IsMarker(queue[0]) ==> Pushed(queue, capacity, item) == queue[1..] + [item]
    ensures IsMarker(queue[0]) && IsMarker(item) ==> Pushed(queue, capacity, item) == queue[2..] + [queue[0], item]
    ensures IsMarker(queue[0]) && !IsMarker(item) ==> Pushed(queue, capacity, item) == queue[1..] + [queue[0]]
    ensures IsMarker(queue[0]) && !IsMarker(item) ==> multiset(Pushed(queue, capacity, item)) == multiset(queue)
  {
    FullPushLosesOne(queue, capacity, item);
    assert queue == [queue[0]] + queue[1..];
    var pushed, rest, lost := multiset(Pushed(queue, capacity, item)), multiset(queue[1..]), Lost(queue, item);
    assert multiset(queue) == multiset{queue[0]} + rest;
    SameButForOne(pushed, rest + multiset{item}, lost, queue[0]);
    if IsMarker(queue[0]) && !IsMarker(item) {
      SameButForOne(pushed, multiset(queue), item, item);
    }
  }

  lemma SameButForOne(a: multiset<Item>, b: multiset<Item>, x: Item, y: Item)
    requires a + multiset{x} == b + multiset{y}
    ensures a == b <==> x == y
  {
    assert (a + multiset{x})[x] == a[x] + 1 && (b + multiset{y})[x] == b[x] + if x == y then 1 else 0;
    forall z | x == y
      ensures a[z] == b[z]
    {
      assert (a + multiset{x})[z] == (b + multiset{y})[z];
    }
  }

  const LATE := Line(Stderr, "late")

  /**
   The newest line may be the one that is lost: for every capacity there is a session in which stdout has ended, older
   lines wait, and the line pushed last is neither waiting nor delivered.
   */
  lemma NewestLineMayBeLost(capacity: nat) returns (steps: seq<Step>, s: Session)
    requires capacity >= 2
    ensures Run(capacity, steps) == Some(s) && !s.ended && s.delivered == []
    ensures s.pushed != [] && s.pushed[|s.pushed| - 1] == LATE && LATE !in s.queue
    ensures NOISE in s.queue && NOISE in s.pushed[..|s.pushed| - 1] && |s.queue| == capacity
  {
    var before;
    steps, before := EndThenLines(capacity);
    RunOn(capacity, steps, Push(LATE));
    steps, s := steps + [Push(LATE)], Apply(before, capacity, Push(LATE));
    assert before.queue[0] == End(Stdout) && before.queue[1..] == Noise(capacity - 1);
    assert s.queue == Noise(capacity - 1) + [End(Stdout)];
    assert s.queue[0] == NOISE;
    EndsComeLast(capacity, steps);
    assert NOISE in s.pushed && s.pushed == before.pushed + [LATE];
  }

  lemma EndThenLines(capacity: nat) returns (steps: seq<Step>, s: Session)
    requires capacity >= 2
    ensures Run(capacity, steps) == Some(s) && !s.ended && s.delivered == []
    ensures s.queue == [End(Stdout)] + Noise(capacity - 1) && End(Stderr) !in s.pushed && Failure(Stderr) !in s.pushed
  {
    RunOn(capacity, [], Push(End(Stdout)));
    var before := Apply(OPENED, capacity, Push(End(Stdout)));
    assert before.queue == [End(Stdout)] && before.pushed == [End(Stdout)];
    s := NoiseFills(capacity, [] + [Push(End(Stdout))], capacity - 1);
    steps := [] + [Push(End(Stdout))] + Pushes(capacity - 1);
  }

  // ---------------------------------------------------------------- the queue and its consumer, in place

  class LogStream {
    const capacity: nat
    var queue: seq<Item>
    var finishedReaders: set<Stream>
    var activeStreams: int
    var ended: bool
    ghost var pushed: seq<Item>
    ghost var delivered: seq<Item>

    constructor (capacity: nat)
      requires capacity >= 2
      ensures Valid() && View() == OPENED && this.capacity == capacity
    {
      this.capacity := capacity;
      queue, finishedReaders, activeStreams, ended := [], {}, 2, false;
      pushed, delivered := [], [];
    }

    /** The counter of active streams is what remains of two after the end markers delivered. */
    ghost predicate Valid()
      reads this
    {
      && capacity >= 2 && |queue| <= capacity
      && (forall stream :: stream in finishedReaders <==> End(stream) in pushed)
      && (forall marker | IsMarker(marker) ::
            Count(delivered, marker) + Count(queue, marker) <= Count(pushed, marker) <= 1)
      && activeStreams == 2 - Count(delivered, End(Stdout)) - Count(delivered, End(Stderr))
    }

    ghost function View(): Session
      reads this
    {
      Session(queue, pushed, delivered, ended)
    }

    method PutNowait(item: Item) returns (full: bool)
      modifies this`queue
      ensures full == (old(|queue|) >= capacity)
      ensures queue == if full then old(queue) else old(queue) + [item]
    {
      full := |queue| >= capacity;
      if !full {
        queue := queue + [item];
      }
    }

    method GetNowait() returns (item: Item)
      requires queue != []
      modifies this`queue
      ensures item == old(queue)[0] && queue == old(queue)[1..]
    {
      item := queue[0];
      queue := queue[1..];
    }

    /** `_push`. */
    method PushOrDrop(item: Item)
      requires capacity >= 2 && |queue| <= capacity
      modifies this`queue
      ensures queue == Pushed(old(queue), capacity, item)
    {
      if IsMarker(item) {
        if |queue| >= capacity {
          var popped := GetNowait();
          if IsMarker(popped) {
            var _ := PutNowait(popped);
          }
        }
        var full := PutNowait(item);
        if full {
          var _ := GetNowait();
          assert queue == old(queue)[2..] + [old(queue)[0]];
          var _ := PutNowait(item);
          assert queue == old(queue)[2..] + [old(queue)[0], item];
        }
      } else {
        if |queue| >= capacity {
          var popped := GetNowait();
          if IsMarker(popped) {
            var _ := PutNowait(popped);
            return;
          }
        }
        var _ := PutNowait(item);
      }
    }

    method EnqueueItem(item: Item)
      requires Valid() && !ended && MayPush(pushed, item)
      modifies this
      ensures Valid() && View() == Apply(old(View()), capacity, Push(item))
    {
      forall marker | IsMarker(marker)
        ensures Count(delivered, marker) + Count(Pushed(queue, capacity, item), marker)
                <= Count(pushed + [item], marker) <= 1
      {
        var evicted := Count(pushed, marker) - Count(delivered, marker) - Count(queue, marker);
        AccountedStep(capacity, View(), Push(item), marker, evicted);
      }
      PushOrDrop(item);
      pushed := pushed + [item];
      if item.End? {
        finishedReaders := finishedReaders + {item.stream};
      }
    }

    method Receive() returns (item: Item)
      requires Valid() && queue != []
      modifies this`queue, this`delivered, this`activeStreams
      ensures item == old(queue)[0] && queue == old(queue)[1..] && delivered == old(delivered) + [item]
      ensures Valid()
    {
      CountsAfterTake(View());
      item := GetNowait();
      delivered := delivered + [item];
      if item.End? {
        activeStreams := activeStreams - 1;
      }
    }

    /** One turn of the consumer's loop; `None` is a wait that timed out or the end. */
    method ConsumerTurn() returns (received: Option<Item>)
      requires Valid() && !ended
      modifies this
      ensures Valid()
      ensures old(queue) != [] ==> received == Some(old(queue)[0]) && View() == Apply(old(View()), capacity, Take)
      ensures old(queue) == [] ==> received == None
      ensures old(queue) == [] && BothEnded(old(pushed)) ==> View() == Apply(old(View()), capacity, Finish)
      ensures old(queue) == [] && !BothEnded(old(pushed)) ==> View() == old(View())
    {
      if Stdout in finishedReaders && Stderr in finishedReaders && queue == [] {
        ended := true;
        return None;
      }
      if queue == [] {
        return None;
      }
      var item := Receive();
      CounterReachesZero(delivered);
      if item.Failure? || activeStreams == 0 {
        ended := true;
      }
      return Some(item);
    }
  }

  lemma CountsAfterTake(s: Session)
    requires s.queue != []
    ensures forall marker ::
              Count(s.delivered + [s.queue[0]], marker) == Count(s.delivered, marker) + AsNat(s.queue[0] == marker)
    ensures forall marker :: Count(s.queue[1..], marker) == Count(s.queue, marker) - AsNat(s.queue[0] == marker)
    ensures s.queue[0].End? ==> s.queue[0] == End(Stdout) || s.queue[0] == End(Stderr)
  {
    forall marker {
      CountOfCons(s.queue, marker);
    }
    assert s.queue[0].stream == Stdout || s.queue[0].stream == Stderr;
  }

  lemma CounterReachesZero(delivered: seq<Item>)
    requires Count(delivered, End(Stdout)) <= 1 && Count(delivered, End(Stderr)) <= 1
    ensures BothEnded(delivered) <==> 2 - Count(delivered, End(Stdout)) - Count(delivered, End(Stderr)) == 0
  {
  }
}
