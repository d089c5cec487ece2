/** An entity's stream as interleaved steps: the producer sequences and stores
    items while the frontend catches up with what is stored and then follows. */
module EntityStream {
  datatype Item<T> = Item(number: nat, payload: T)

  datatype SubState<T> =
    | Unwatched
    | CatchingUp(buffer: seq<Item<T>>)
    | Live

  /** The one task that appends: an item that was sequenced waits in the queue for
      the database, and is stored when its turn comes. */
  datatype Appender = Ready | Sequenced | Queued

  /** The one task that subscribes. */
  datatype Subscriber = Detached | Begun | Waiting | Reading(cursor: nat) | Replayed | Attached | Tailing

  /** The database connection is a first-come, first-served lock. */
  datatype Waiter = Insertion | Replay | Other

  /** The record, the stored rows and the events of the current subscription; the
      tasks and the lock's queue; and what happened: every item, the counts of
      sequenced and stored items when catch-up began, and whether the replay joined
      the queue while the last item sequenced until then had no place in it yet. */
  datatype Hub<T> = Hub(
    nextSeq: nat,
    sub: SubState<T>,
    rows: seq<Item<T>>,
    emitted: seq<Item<T>>,
    lastReplayed: nat,
    appender: Appender,
    subscriber: Subscriber,
    queue: seq<Waiter>,
    log: seq<Item<T>>,
    begunAt: nat,
    storedAt: nat,
    overtook: bool)

  function NewHub<T>(): Hub<T> {
    Hub(0, Unwatched, [], [], 0, Ready, Detached, [], [], 0, 0, false)
  }

  datatype Step<T> =
    | Sequence(payload: T)
    | QueueInsert
    | Insert
    | Begin
    | QueueReplay
    | OpenRows
    | ReplayRow
    | CloseRows
    | Splice
    | Tail
    | Unsubscribe
    | QueueOther
    | OtherDone

  predicate Turn(queue: seq<Waiter>, w: Waiter) {
    queue != [] && queue[0] == w
  }

  predicate Enabled<T>(h: Hub<T>, step: Step<T>) {
    match step
    case Sequence(_) => h.appender.Ready?
    case QueueInsert => h.appender.Sequenced?
    case Insert => h.appender.Queued? && Turn(h.queue, Insertion) && h.log != []
    case Begin => h.subscriber.Detached?
    case QueueReplay => h.subscriber.Begun?
    case OpenRows => h.subscriber.Waiting? && Turn(h.queue, Replay)
    case ReplayRow => h.subscriber.Reading? && h.subscriber.cursor < |h.rows|
    case CloseRows => h.subscriber.Reading? && h.subscriber.cursor >= |h.rows| && Turn(h.queue, Replay)
    case Splice => h.subscriber.Replayed?
    case Tail => h.subscriber.Detached?
    case Unsubscribe => h.subscriber.Attached? || h.subscriber.Tailing?
    case QueueOther => true
    case OtherDone => Turn(h.queue, Other)
  }

  /** The buffered items that the replay did not cover. */
  function Uncovered<T>(buffer: seq<Item<T>>, last: nat): seq<Item<T>> {
    if buffer == [] then []
    else
      var item := buffer[|buffer| - 1];
      Uncovered(buffer[..|buffer| - 1], last) + if item.number > last then [item] else []
  }

  /** The last item sequenced before catch-up began has its number, but no place in
      the queue for the database. */
  predicate Unqueued<T>(h: Hub<T>) {
    h.appender.Sequenced? && h.begunAt == |h.log|
  }

  function Do<T>(h: Hub<T>, step: Step<T>): Hub<T>
    requires Enabled(h, step)
  {
    match step
    case Sequence(payload) =>
      var item := Item(h.nextSeq + 1, payload);
      var h' := h.(nextSeq := h.nextSeq + 1, appender := Sequenced, log := h.log + [item]);
      (match h.sub
       case Unwatched => h'
       case CatchingUp(buffer) => h'.(sub := CatchingUp(buffer + [item]))
       case Live => h'.(emitted := h.emitted + [item]))
    case QueueInsert => h.(appender := Queued, queue := h.queue + [Insertion])
    case Insert => h.(appender := Ready, queue := h.queue[1..], rows := h.rows + [h.log[|h.log| - 1]])
    case Begin =>
      h.(subscriber := Begun, sub := CatchingUp([]), emitted := [], lastReplayed := 0,
         begunAt := h.nextSeq, storedAt := |h.rows|, overtook := false)
    case QueueReplay => h.(subscriber := Waiting, queue := h.queue + [Replay], overtook := Unqueued(h))
    case OpenRows => h.(subscriber := Reading(0))
    case ReplayRow =>
      var row := h.rows[h.subscriber.cursor];
      h.(subscriber := Reading(h.subscriber.cursor + 1), emitted := h.emitted + [row], lastReplayed := row.number)
    case CloseRows => h.(subscriber := Replayed, queue := h.queue[1..])
    case Splice =>
      var missed := if h.sub.CatchingUp? then Uncovered(h.sub.buffer, h.lastReplayed) else [];
      h.(subscriber := Attached, sub := Live, emitted := h.emitted + missed)
    case Tail =>
      h.(subscriber := Tailing, sub := Live, emitted := [], begunAt := h.nextSeq, storedAt := |h.rows|)
    case Unsubscribe => h.(subscriber := Detached, sub := Unwatched)
    case QueueOther => h.(queue := h.queue + [Other])
    case OtherDone => h.(queue := h.queue[1..])
  }

  ghost predicate Runs<T>(h: Hub<T>, steps: seq<Step<T>>)
    decreases |steps|
  {
    steps == [] || (Enabled(h, steps[0]) && Runs(Do(h, steps[0]), steps[1..]))
  }

  ghost function After<T>(h: Hub<T>, steps: seq<Step<T>>): Hub<T>
    requires Runs(h, steps)
    decreases |steps|
  {
    if steps == [] then h else After(Do(h, steps[0]), steps[1..])
  }

  // ----- What is appended, and to whom it goes -----

  function Payloads<T>(items: seq<Item<T>>): (r: seq<T>)
    ensures |r| == |items|
  {
    seq(|items|, i requires 0 <= i < |items| => items[i].payload)
  }

  function Appended<T>(steps: seq<Step<T>>): seq<T> {
    if steps == [] then []
    else (if steps[0].Sequence? then [steps[0].payload] else []) + Appended(steps[1..])
  }

  /** Over every run the stream is what was appended, in order. */
  lemma {:induction false} LogIsAppended<T>(h: Hub<T>, steps: seq<Step<T>>)
    requires Runs(h, steps)
    ensures Payloads(After(h, steps).log) == Payloads(h.log) + Appended(steps)
    decreases |steps|
  {
    if steps == [] {
      assert Payloads(h.log) + [] == Payloads(h.log);
    } else {
      var h', first := Do(h, steps[0]), if steps[0].Sequence? then [steps[0].payload] else [];
      LogIsAppended(h', steps[1..]);
      assert Payloads(h'.log) == Payloads(h.log) + first;
      assert Payloads(h.log) + first + Appended(steps[1..]) == Payloads(h.log) + (first + Appended(steps[1..]));
    }
  }

  /** An entity that nobody watches emits nothing, whatever is appended, until someone
      subscribes. */
  lemma {:induction false} UnwatchedIsQuiet<T>(h: Hub<T>, steps: seq<Step<T>>)
    requires h.subscriber.Detached? && h.sub.Unwatched? && Runs(h, steps)
    requires forall i :: 0 <= i < |steps| ==> !steps[i].Begin? && !steps[i].Tail?
    ensures After(h, steps).emitted == h.emitted
    decreases |steps|
  {
    if steps != [] {
      UnwatchedIsQuiet(Do(h, steps[0]), steps[1..]);
    }
  }

  // ----- What every interleaving keeps -----

  ghost predicate LogOk<T>(h: Hub<T>) {
    && |h.log| == h.nextSeq
    && forall i :: 0 <= i < |h.log| ==> h.log[i].number == i + 1
  }

  /** Everything sequenced is stored, but for the item in flight. */
  ghost predicate RowsOk<T>(h: Hub<T>)
    requires LogOk(h)
  {
    && |h.rows| == h.nextSeq - (if h.appender.Ready? then 0 else 1)
    && h.rows == h.log[..|h.rows|]
  }

  ghost predicate Buffering<T>(h: Hub<T>)
    requires LogOk(h)
  {
    && h.begunAt <= h.nextSeq
    && h.sub == CatchingUp(h.log[h.begunAt..])
    && h.begunAt - 1 <= h.storedAt <= h.begunAt
    && h.storedAt <= |h.rows|
  }

  /** What a catch-up that replayed `last` items leaves emitted: those, and what was
      sequenced since it began and not replayed. */
  function CaughtUp<T>(h: Hub<T>): seq<Item<T>>
    requires h.begunAt <= |h.log| && h.lastReplayed <= |h.log|
  {
    h.log[..h.lastReplayed] + h.log[if h.lastReplayed > h.begunAt then h.lastReplayed else h.begunAt..]
  }

  ghost predicate SubscriberOk<T>(h: Hub<T>)
    requires LogOk(h) && RowsOk(h)
  {
    match h.subscriber
    case Detached => h.sub.Unwatched?
    case Begun => Buffering(h) && h.emitted == [] && h.lastReplayed == 0
    case Waiting => Buffering(h) && h.emitted == [] && h.lastReplayed == 0
    case Reading(cursor) =>
      && Buffering(h)
      && Turn(h.queue, Replay)
      && cursor == h.lastReplayed <= |h.rows|
      && h.emitted == h.log[..cursor]
    case Replayed => Buffering(h) && h.storedAt <= h.lastReplayed <= |h.rows| && h.emitted == h.log[..h.lastReplayed]
    case Attached =>
      && h.sub.Live?
      && h.begunAt <= h.nextSeq && h.lastReplayed <= h.nextSeq
      && h.begunAt - 1 <= h.storedAt <= h.lastReplayed
      && h.storedAt <= h.begunAt
      && h.emitted == CaughtUp(h)
    case Tailing => h.sub.Live? && h.begunAt <= h.nextSeq && h.emitted == h.log[h.begunAt..]
  }

  ghost predicate Inv<T>(h: Hub<T>) {
    LogOk(h) && RowsOk(h) && SubscriberOk(h)
  }

  lemma UncoveredAppend<T>(buffer: seq<Item<T>>, item: Item<T>, last: nat)
    ensures Uncovered(buffer + [item], last) == Uncovered(buffer, last) + if item.number > last then [item] else []
  {
    assert (buffer + [item])[..|buffer|] == buffer;
  }

  lemma {:induction false} UncoveredIs<T>(log: seq<Item<T>>, from: nat, last: nat)
    requires forall i :: 0 <= i < |log| ==> log[i].number == i + 1
    requires from <= |log| && last <= |log|
    ensures Uncovered(log[from..], last) == log[if last > from then last else from..]
    decreases |log|
  {
    if from == |log| {
      assert log[from..] == [];
    } else {
      var n := |log| - 1;
      var init := log[..n];
      assert log[from..] == init[from..] + [log[n]];
      UncoveredAppend(init[from..], log[n], last);
      if last <= n {
        UncoveredIs(init, from, last);
        var start := if last > from then last else from;
        assert log[start..] == init[start..] + [log[n]];
      } else {
        NothingUncovered(init[from..], last);
        assert log[last..] == [];
      }
    }
  }

  lemma {:induction false} NothingUncovered<T>(buffer: seq<Item<T>>, last: nat)
    requires forall i :: 0 <= i < |buffer| ==> buffer[i].number <= last
    ensures Uncovered(buffer, last) == []
    decreases |buffer|
  {
    if buffer != [] {
      NothingUncovered(buffer[..|buffer| - 1], last);
    }
  }

  lemma SlicesGrow<T>(log: seq<Item<T>>, item: Item<T>, k: nat)
    requires k <= |log|
    ensures (log + [item])[..k] == log[..k] && (log + [item])[k..] == log[k..] + [item]
  {
  }

  lemma SequenceKeepsCaughtUp<T>(h: Hub<T>, payload: T)
    requires LogOk(h) && h.appender.Ready? && h.sub.Live? && h.begunAt <= h.nextSeq && h.lastReplayed <= h.nextSeq
    ensures var h' := Do(h, Sequence(payload));
      h'.log == h.log + [Item(h.nextSeq + 1, payload)] && CaughtUp(h') == CaughtUp(h) + [Item(h.nextSeq + 1, payload)]
  {
    var item := Item(h.nextSeq + 1, payload);
    var start := if h.lastReplayed > h.begunAt then h.lastReplayed else h.begunAt;
    SlicesGrow(h.log, item, h.lastReplayed);
    SlicesGrow(h.log, item, start);
  }

  lemma SequenceKeepsSubscriber<T>(h: Hub<T>, payload: T)
    requires Inv(h) && Enabled(h, Sequence(payload))
    requires LogOk(Do(h, Sequence(payload))) && RowsOk(Do(h, Sequence(payload)))
    ensures SubscriberOk(Do(h, Sequence(payload)))
  {
    var item := Item(h.nextSeq + 1, payload);
    match h.subscriber
    case Detached =>
    case Begun => SlicesGrow(h.log, item, h.begunAt);
    case Waiting => SlicesGrow(h.log, item, h.begunAt);
    case Reading(cursor) =>
      SlicesGrow(h.log, item, h.begunAt);
      SlicesGrow(h.log, item, cursor);
    case Replayed =>
      SlicesGrow(h.log, item, h.begunAt);
      SlicesGrow(h.log, item, h.lastReplayed);
    case Attached => SequenceKeepsCaughtUp(h, payload);
    case Tailing => SlicesGrow(h.log, item, h.begunAt);
  }

  lemma SequenceKeepsLog<T>(h: Hub<T>, payload: T)
    requires LogOk(h) && RowsOk(h) && Enabled(h, Sequence(payload))
    ensures LogOk(Do(h, Sequence(payload))) && RowsOk(Do(h, Sequence(payload)))
  {
    SlicesGrow(h.log, Item(h.nextSeq + 1, payload), |h.rows|);
  }

  lemma SequenceKeeps<T>(h: Hub<T>, payload: T)
    requires Inv(h) && Enabled(h, Sequence(payload))
    ensures Inv(Do(h, Sequence(payload)))
  {
    SequenceKeepsLog(h, payload);
    SequenceKeepsSubscriber(h, payload);
  }

  lemma InsertKeeps<T>(h: Hub<T>)
    requires Inv(h) && Enabled(h, Insert)
    ensures Inv(Do(h, Insert))
  {
    assert h.log[..|h.rows| + 1] == h.log[..|h.rows|] + [h.log[|h.rows|]];
  }

  lemma BeginKeeps<T>(h: Hub<T>)
    requires Inv(h) && Enabled(h, Begin)
    ensures Inv(Do(h, Begin))
  {
    assert h.log[h.nextSeq..] == [];
  }

  lemma ReplayRowKeeps<T>(h: Hub<T>)
    requires Inv(h) && Enabled(h, ReplayRow)
    ensures Inv(Do(h, ReplayRow))
  {
    var cursor := h.subscriber.cursor;
    assert h.rows[cursor] == h.log[cursor];
    assert h.log[..cursor + 1] == h.log[..cursor] + [h.log[cursor]];
  }

  lemma SpliceKeeps<T>(h: Hub<T>)
    requires Inv(h) && Enabled(h, Splice)
    ensures Inv(Do(h, Splice))
  {
    UncoveredIs(h.log, h.begunAt, h.lastReplayed);
  }

  lemma TailKeeps<T>(h: Hub<T>)
    requires Inv(h) && Enabled(h, Tail)
    ensures Inv(Do(h, Tail))
  {
    assert h.log[h.nextSeq..] == [];
  }

  lemma StepKeeps<T>(h: Hub<T>, step: Step<T>)
    requires Inv(h) && Enabled(h, step)
    ensures Inv(Do(h, step))
  {
    match step
    case Sequence(payload) => SequenceKeeps(h, payload);
    case Insert => InsertKeeps(h);
    case Begin => BeginKeeps(h);
    case ReplayRow => ReplayRowKeeps(h);
    case Splice => SpliceKeeps(h);
    case Tail => TailKeeps(h);
    case QueueOther => assert Turn(h.queue, Replay) ==> Turn(h.queue + [Other], Replay);
    case QueueInsert => assert Turn(h.queue, Replay) ==> Turn(h.queue + [Insertion], Replay);
    case QueueReplay =>
    case OpenRows =>
    case CloseRows =>
    case Unsubscribe =>
    case OtherDone =>
  }

  lemma {:induction false} RunKeeps<T>(h: Hub<T>, steps: seq<Step<T>>)
    requires Inv(h) && Runs(h, steps)
    ensures Inv(After(h, steps))
    decreases |steps|
  {
    if steps != [] {
      StepKeeps(h, steps[0]);
      RunKeeps(Do(h, steps[0]), steps[1..]);
    }
  }

  lemma NewHubOk<T>()
    ensures Inv(NewHub<T>()) && InOrder(NewHub<T>())
  {
  }

  // ----- What a subscriber has seen -----

  ghost predicate Reachable<T>(h: Hub<T>, steps: seq<Step<T>>) {
    Runs(NewHub(), steps) && h == After(NewHub(), steps)
  }

  /** Whatever the interleaving, items come out in order and at most once. */
  lemma EmittedInOrder<T>(h: Hub<T>, steps: seq<Step<T>>)
    requires Reachable(h, steps) && !h.subscriber.Detached?
    ensures forall i, j :: 0 <= i < j < |h.emitted| ==> h.emitted[i].number < h.emitted[j].number
    ensures forall i :: 0 <= i < |h.emitted| ==> h.emitted[i] in h.log
  {
    NewHubOk<T>();
    RunKeeps(NewHub(), steps);
    EmittedFromLog(h);
  }

  lemma EmittedFromLog<T>(h: Hub<T>)
    requires Inv(h) && !h.subscriber.Detached?
    ensures forall i, j :: 0 <= i < j < |h.emitted| ==> h.emitted[i].number < h.emitted[j].number
    ensures forall i :: 0 <= i < |h.emitted| ==> h.emitted[i] in h.log
  {
  }

  // ----- The queue decides what is missed -----

  /** The waiter `w` is somewhere before the replay. */
  ghost predicate Ahead(queue: seq<Waiter>, w: Waiter) {
    forall i :: 0 <= i < |queue| && queue[i] == Replay ==> w in queue[..i]
  }

  /** The waiter `w` is nowhere before the replay. */
  ghost predicate NotAhead(queue: seq<Waiter>, w: Waiter) {
    forall i :: 0 <= i < |queue| && queue[i] == Replay ==> w !in queue[..i]
  }

  ghost predicate OneReplay(queue: seq<Waiter>) {
    forall i, j :: 0 <= i < j < |queue| && queue[i] == Replay ==> queue[j] != Replay
  }

  /** The tasks' places in the queue. While the replay waits, an item that was in
      flight when catch-up began is behind it if the replay overtook it, and is
      stored or ahead of it otherwise; from then on that is settled. */
  ghost predicate InOrder<T>(h: Hub<T>) {
    && (h.appender.Queued? <==> Insertion in h.queue)
    && (h.subscriber.Waiting? || h.subscriber.Reading? <==> Replay in h.queue)
    && OneReplay(h.queue)
    && (h.subscriber.Waiting? && h.overtook ==> |h.rows| < h.begunAt && NotAhead(h.queue, Insertion))
    && (h.subscriber.Waiting? && !h.overtook && |h.rows| < h.begunAt ==> Ahead(h.queue, Insertion))
    && (h.subscriber.Reading? ==> (h.overtook <==> |h.rows| < h.begunAt))
    && (h.subscriber.Replayed? || h.subscriber.Attached? ==> (h.overtook <==> h.lastReplayed < h.begunAt))
    && (forall i, j :: 0 <= i < j < |h.queue| && h.queue[i] == Insertion ==> h.queue[j] != Insertion)
  }

  lemma QueueGrows(queue: seq<Waiter>, more: Waiter, w: Waiter)
    requires more != Replay
    ensures Ahead(queue, w) ==> Ahead(queue + [more], w)
    ensures NotAhead(queue, w) ==> NotAhead(queue + [more], w)
    ensures OneReplay(queue) ==> OneReplay(queue + [more])
    ensures forall x :: x in queue + [more] <==> x in queue || x == more
  {
    assert forall i :: 0 <= i <= |queue| ==> (queue + [more])[..i] == queue[..i];
  }

  lemma ReplayJoins(queue: seq<Waiter>, w: Waiter)
    requires Replay !in queue
    ensures OneReplay(queue + [Replay])
    ensures w in queue ==> Ahead(queue + [Replay], w)
    ensures w !in queue ==> NotAhead(queue + [Replay], w)
    ensures forall x :: x in queue + [Replay] <==> x in queue || x == Replay
  {
    assert (queue + [Replay])[..|queue|] == queue;
  }

  lemma ShiftQueue(queue: seq<Waiter>, i: nat)
    requires queue != [] && i < |queue| - 1
    ensures queue[1..][i] == queue[i + 1] && queue[..i + 1] == [queue[0]] + queue[1..][..i]
  {
  }

  lemma QueueMovesOn(queue: seq<Waiter>, w: Waiter)
    requires queue != [] && queue[0] != w
    ensures Ahead(queue, w) ==> Ahead(queue[1..], w)
    ensures NotAhead(queue, w) ==> NotAhead(queue[1..], w)
    ensures OneReplay(queue) ==> OneReplay(queue[1..])
    ensures forall x :: x in queue <==> x == queue[0] || x in queue[1..]
  {
    forall i | 0 <= i < |queue| - 1 && queue[1..][i] == Replay
      ensures w in queue[1..][..i] <==> w in queue[..i + 1]
    {
      ShiftQueue(queue, i);
    }
    assert queue == [queue[0]] + queue[1..];
  }

  /** The insertion at the head of the queue is the item in flight. */
  lemma InsertInOrder<T>(h: Hub<T>)
    requires Inv(h) && InOrder(h) && Enabled(h, Insert)
    ensures InOrder(Do(h, Insert))
  {
    var queue := h.queue[1..];
    assert h.queue == [Insertion] + queue;
    assert Insertion !in queue;
    assert Replay in h.queue <==> Replay in queue;
    if h.subscriber.Waiting? {
      var i :| 0 <= i < |h.queue| && h.queue[i] == Replay;
      assert h.queue[..i][0] == Insertion;
    }
  }

  lemma CloseInOrder<T>(h: Hub<T>)
    requires Inv(h) && InOrder(h) && Enabled(h, CloseRows)
    ensures InOrder(Do(h, CloseRows))
  {
    QueueMovesOn(h.queue, Insertion);
    assert forall i :: 0 <= i < |h.queue| - 1 ==> h.queue[1..][i] == h.queue[i + 1];
  }

  lemma JoinInOrder<T>(h: Hub<T>, step: Step<T>)
    requires Inv(h) && InOrder(h) && Enabled(h, step) && (step.QueueInsert? || step.QueueReplay? || step.QueueOther?)
    ensures InOrder(Do(h, step))
  {
    match step
    case QueueInsert => QueueGrows(h.queue, Insertion, Insertion);
    case QueueReplay => ReplayJoins(h.queue, Insertion);
    case QueueOther => QueueGrows(h.queue, Other, Insertion);
  }

  lemma OtherDoneInOrder<T>(h: Hub<T>)
    requires Inv(h) && InOrder(h) && Enabled(h, OtherDone)
    ensures InOrder(Do(h, OtherDone))
  {
    QueueMovesOn(h.queue, Insertion);
  }

  /** Steps that leave the queue as it is. */
  lemma QuietInOrder<T>(h: Hub<T>, step: Step<T>)
    requires Inv(h) && InOrder(h) && Enabled(h, step) && Do(h, step).queue == h.queue
    ensures InOrder(Do(h, step))
  {
    if step.OpenRows? { assert h.queue[..0] == []; }
  }

  lemma StepInOrder<T>(h: Hub<T>, step: Step<T>)
    requires Inv(h) && InOrder(h) && Enabled(h, step)
    ensures InOrder(Do(h, step))
  {
    match step
    case QueueInsert => JoinInOrder(h, step);
    case QueueReplay => JoinInOrder(h, step);
    case QueueOther => JoinInOrder(h, step);
    case Insert => InsertInOrder(h);
    case CloseRows => CloseInOrder(h);
    case OtherDone => OtherDoneInOrder(h);
    case _ => QuietInOrder(h, step);
  }

  lemma {:induction false} RunInOrder<T>(h: Hub<T>, steps: seq<Step<T>>)
    requires Inv(h) && InOrder(h) && Runs(h, steps)
    ensures Inv(After(h, steps)) && InOrder(After(h, steps))
    decreases |steps|
  {
    if steps != [] {
      StepKeeps(h, steps[0]);
      StepInOrder(h, steps[0]);
      RunInOrder(Do(h, steps[0]), steps[1..]);
    }
  }

  /** What a caught-up subscription has emitted, by what the replay read last. */
  lemma MissingItem<T>(h: Hub<T>)
    requires Inv(h) && h.subscriber.Attached?
    ensures h.emitted == h.log <==> h.begunAt <= h.lastReplayed
    ensures h.lastReplayed < h.begunAt ==>
      && h.storedAt == h.begunAt - 1 == h.lastReplayed
      && h.begunAt <= |h.log|
      && h.emitted == h.log[..h.begunAt - 1] + h.log[h.begunAt..]
  {
    if h.begunAt <= h.lastReplayed {
      assert h.log[..h.lastReplayed] + h.log[h.lastReplayed..] == h.log;
    } else {
      assert |h.emitted| == |h.log| - 1;
    }
  }

  /** Once caught up, a subscription misses an item exactly when its replay joined the
      queue while the last item sequenced before catch-up began had a number but no
      place in the queue; that item, and no other, is then missing. */
  lemma MissingIff<T>(h: Hub<T>, steps: seq<Step<T>>)
    requires Reachable(h, steps) && h.subscriber.Attached?
    ensures h.emitted == h.log <==> !h.overtook
    ensures h.overtook ==>
      && h.storedAt == h.begunAt - 1
      && 0 < h.begunAt <= |h.log|
      && h.emitted == h.log[..h.begunAt - 1] + h.log[h.begunAt..]
  {
    NewHubOk<T>();
    RunInOrder(NewHub(), steps);
    MissingItem(h);
  }

  /** An item can be missed: it was sequenced, and its insertion came to the lock only
      after the replay. */
  lemma SplitCanMiss<T>(x: T)
    ensures exists h: Hub<T>, steps :: Reachable(h, steps) && h.subscriber.Attached? && h.emitted != h.log
  {
    var h0 := NewHub();
    var h1 := Do(h0, Sequence(x));
    var h2 := Do(h1, Begin);
    var h3 := Do(h2, QueueReplay);
    var h4 := Do(h3, OpenRows);
    var h5 := Do(h4, CloseRows);
    var h6 := Do(h5, Splice);
    var s1: seq<Step<T>> := [] + [Sequence(x)];
    var s2 := s1 + [Begin];
    var s3 := s2 + [QueueReplay];
    var s4 := s3 + [OpenRows];
    var s5 := s4 + [CloseRows];
    RunOne(h0, Sequence(x), []);
    RunOne(h0, Begin, s1);
    RunOne(h0, QueueReplay, s2);
    RunOne(h0, OpenRows, s3);
    RunOne(h0, CloseRows, s4);
    RunOne(h0, Splice, s5);
    assert Reachable(h6, s5 + [Splice]);
  }

  lemma {:induction false} RunOne<T>(h: Hub<T>, step: Step<T>, before: seq<Step<T>>)
    requires Runs(h, before) && Enabled(After(h, before), step)
    ensures Runs(h, before + [step]) && After(h, before + [step]) == Do(After(h, before), step)
    decreases |before|
  {
    if before == [] {
      assert [step][1..] == [];
    } else {
      assert (before + [step])[1..] == before[1..] + [step];
      RunOne(Do(h, before[0]), step, before[1..]);
    }
  }

  // ----- Queueing in the same breath -----

  /** Between taking a number and queueing for the database there is no await: on one
      thread, and likewise between beginning to catch up and queueing, nothing
      comes between the two. */
  datatype Breath<T> =
    | Append(payload: T)
    | Subscribe
    | Single(step: Step<T>)

  function StepsOf<T>(breath: Breath<T>): seq<Step<T>> {
    match breath
    case Append(payload) => [Sequence(payload), QueueInsert]
    case Subscribe => [Begin, QueueReplay]
    case Single(step) => [step]
  }

  predicate Proper<T>(breath: Breath<T>) {
    breath.Single? ==>
      !(breath.step.Sequence? || breath.step.QueueInsert? || breath.step.Begin? || breath.step.QueueReplay?)
  }

  ghost predicate BreathRuns<T>(h: Hub<T>, breaths: seq<Breath<T>>)
    decreases |breaths|
  {
    breaths == [] ||
    (Proper(breaths[0]) && Runs(h, StepsOf(breaths[0])) && BreathRuns(After(h, StepsOf(breaths[0])), breaths[1..]))
  }

  ghost function AfterBreaths<T>(h: Hub<T>, breaths: seq<Breath<T>>): Hub<T>
    requires BreathRuns(h, breaths)
    decreases |breaths|
  {
    if breaths == [] then h else AfterBreaths(After(h, StepsOf(breaths[0])), breaths[1..])
  }

  /** Between two breaths nothing is half done, and no replay overtook an item. */
  ghost predicate Settled<T>(h: Hub<T>) {
    Inv(h) && InOrder(h) && !h.appender.Sequenced? && !h.subscriber.Begun? && !h.overtook
  }

  lemma TwoSteps<T>(h: Hub<T>, a: Step<T>, b: Step<T>)
    requires Runs(h, [a, b])
    ensures Enabled(h, a) && Enabled(Do(h, a), b) && After(h, [a, b]) == Do(Do(h, a), b)
  {
    assert [a, b][1..] == [b] && [b][1..] == [];
    OneStep(Do(h, a), b);
  }

  lemma OneStep<T>(h: Hub<T>, a: Step<T>)
    requires Runs(h, [a])
    ensures Enabled(h, a) && After(h, [a]) == Do(h, a)
  {
    assert [a][1..] == [];
  }

  lemma BreathKeeps<T>(h: Hub<T>, breath: Breath<T>)
    requires Settled(h) && Proper(breath) && Runs(h, StepsOf(breath))
    ensures Settled(After(h, StepsOf(breath)))
  {
    RunInOrder(h, StepsOf(breath));
    match breath
    case Append(payload) => TwoSteps(h, Sequence(payload), QueueInsert);
    case Subscribe => TwoSteps(h, Begin, QueueReplay);
    case Single(step) => OneStep(h, step);
  }

  lemma {:induction false} BreathsKeep<T>(h: Hub<T>, breaths: seq<Breath<T>>)
    requires Settled(h) && BreathRuns(h, breaths)
    ensures Settled(AfterBreaths(h, breaths))
    decreases |breaths|
  {
    if breaths != [] {
      BreathKeeps(h, breaths[0]);
      BreathsKeep(After(h, StepsOf(breaths[0])), breaths[1..]);
    }
  }

  /** When queueing comes in the same breath, every subscription that has caught up
      has received every item of the stream: 1 to n, in order. */
  lemma CatchUpIsExact<T>(breaths: seq<Breath<T>>)
    requires BreathRuns(NewHub(), breaths)
    ensures var h := AfterBreaths(NewHub(), breaths);
      h.subscriber.Attached? ==>
        && h.emitted == h.log
        && |h.emitted| == h.nextSeq
        && forall i :: 0 <= i < |h.emitted| ==> h.emitted[i].number == i + 1
  {
    NewHubOk<T>();
    BreathsKeep(NewHub(), breaths);
    var h := AfterBreaths(NewHub(), breaths);
    if h.subscriber.Attached? {
      MissingItem(h);
    }
  }
}
