/** The hub's record as the tasks change it, one locked section at a time. */
module EntityHub {
  import opened Wrappers
  import opened EntityStream

  class EntityRecord<T> {
    var settled: bool
    var nextSeq: nat
    var sub: SubState<T>
    /** The database's rows of this entity, and the events sent. */
    var rows: seq<Item<T>>
    var events: seq<Item<T>>
    /** A local of the subscribing task. */
    var lastReplayed: nat
    ghost var appender: Appender
    ghost var subscriber: Subscriber
    ghost var queue: seq<Waiter>
    ghost var log: seq<Item<T>>
    ghost var begunAt: nat
    ghost var storedAt: nat
    ghost var overtook: bool

    ghost function State(): Hub<T>
      reads this
    {
      Hub(nextSeq, sub, rows, events, lastReplayed, appender, subscriber, queue, log, begunAt, storedAt, overtook)
    }

    constructor ()
      ensures State() == NewHub() && !settled
    {
      settled, nextSeq, sub, rows, events, lastReplayed := false, 0, Unwatched, [], [], 0;
      appender, subscriber, queue, log, begunAt, storedAt, overtook := Ready, Detached, [], [], 0, 0, false;
    }

    /** The locked section of an append: takes a number and hands the item to whoever
        watches. A settled entity takes none. */
    method TakeNumber(payload: T) returns (item: Option<Item<T>>)
      requires appender.Ready?
      modifies this
      ensures settled == old(settled)
      ensures if settled then item == None && State() == old(State())
              else item == Some(Item(old(nextSeq) + 1, payload)) && State() == Do(old(State()), Sequence(payload))
    {
      if settled {
        return None;
      }
      nextSeq := nextSeq + 1;
      var next := Item(nextSeq, payload);
      match sub {
        case Unwatched =>
        case CatchingUp(buffer) => sub := CatchingUp(buffer + [next]);
        case Live => events := events + [next];
      }
      appender, log := Sequenced, log + [next];
      return Some(next);
    }

    /** The insertion of an item whose turn at the database has come. */
    method Store(item: Item<T>)
      requires Enabled(State(), Step<T>.Insert) && item == log[|log| - 1]
      modifies this
      ensures settled == old(settled) && State() == Do(old(State()), Step<T>.Insert)
    {
      rows := rows + [item];
      appender, queue := Ready, queue[1..];
    }

    method BeginCatchUp()
      requires subscriber.Detached?
      modifies this
      ensures settled == old(settled) && State() == Do(old(State()), Step<T>.Begin)
    {
      sub, events, lastReplayed := CatchingUp([]), [], 0;
      subscriber, begunAt, storedAt, overtook := Begun, nextSeq, |rows|, false;
    }

    method SendRow(cursor: nat)
      requires subscriber == Reading(cursor) && cursor < |rows|
      modifies this
      ensures settled == old(settled) && State() == Do(old(State()), Step<T>.ReplayRow)
    {
      var row := rows[cursor];
      events := events + [row];
      lastReplayed := row.number;
      subscriber := Reading(cursor + 1);
    }

    /** The locked section that ends catch-up: goes live and sends what was buffered,
        dropping what the replay covered. */
    method GoLive()
      requires subscriber.Replayed?
      modifies this
      ensures settled == old(settled) && State() == Do(old(State()), Step<T>.Splice)
    {
      var was := sub;
      sub := Live;
      if was.CatchingUp? {
        var before := events;
        for i := 0 to |was.buffer|
          invariant events == before + Uncovered(was.buffer[..i], lastReplayed)
          invariant State() == old(State()).(sub := Live, emitted := events) && settled == old(settled)
        {
          assert was.buffer[..i + 1][..i] == was.buffer[..i];
          if was.buffer[i].number > lastReplayed {
            events := events + [was.buffer[i]];
          }
        }
        assert was.buffer[..|was.buffer|] == was.buffer;
      }
      subscriber := Attached;
    }

    method Follow()
      requires subscriber.Detached?
      modifies this
      ensures settled == old(settled) && State() == Do(old(State()), Step<T>.Tail)
    {
      sub := Live;
      events := [];
      subscriber, begunAt, storedAt := Tailing, nextSeq, |rows|;
    }

    method Unsubscribe()
      requires (subscriber.Attached? || subscriber.Tailing?)
      modifies this
      ensures settled == old(settled) && State() == Do(old(State()), Step<T>.Unsubscribe)
    {
      sub := Unwatched;
      subscriber := Detached;
    }

    /** No append is in progress when the one producer settles its entity. */
    method Settle()
      requires appender.Ready?
      modifies this`settled
      ensures settled
    {
      settled := true;
    }
  }
}
