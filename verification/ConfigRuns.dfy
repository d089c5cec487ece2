/** A configuration over its whole life: what is read is what the providers last
    wrote. */
module ConfigRuns {
  import opened Wrappers
  import opened ConfigValues
  import opened LayeredConfig

  datatype Batch = Batch(provider: nat, events: seq<Event>)

  // ----- The flat maps that the tree refines -----

  /** What a provider last wrote to a path. */
  function Setting(history: seq<Batch>, provider: nat, path: Keys): Value
    decreases |history|
  {
    if history == [] then Null
    else
      var batch := history[|history| - 1];
      var value := Latest(EntriesOf(batch.events), path);
      if batch.provider == provider && value.Some? then value.value
      else Setting(history[..|history| - 1], provider, path)
  }

  function FlatSlots(history: seq<Batch>, n: nat, path: Keys): (r: seq<Value>)
    ensures |r| == n
  {
    seq(n, provider requires 0 <= provider < n => Setting(history, provider, path))
  }

  /** The highest provider's setting that is not null. */
  function Winner(history: seq<Batch>, n: nat, path: Keys): (r: Option<Value>)
    ensures r.None? ==> forall p :: 0 <= p < n ==> Setting(history, p, path) == Null
    ensures r.Some? ==> exists p: nat :: Wins(history, n, path, p) && r.value == Setting(history, p, path)
  {
    var slots := FlatSlots(history, n, path);
    assert forall p :: 0 <= p < n ==> slots[p] == Setting(history, p, path);
    var index := LastNonNull(slots);
    if index.None? then None
    else
      assert Wins(history, n, path, index.value);
      Some(slots[index.value])
  }

  predicate Wins(history: seq<Batch>, n: nat, path: Keys, p: nat) {
    && p < n
    && Setting(history, p, path) != Null
    && forall higher :: p < higher < n ==> Setting(history, higher, path) == Null
  }

  // ----- Refinement -----

  ghost predicate Refines(node: Option<Configuration>, history: seq<Batch>, n: nat) {
    WellFormed(node, n) && forall path :: Slots(node, n, path) == FlatSlots(history, n, path)
  }

  function Read(node: Option<Configuration>): Option<Value> {
    if node.None? || node.value.valueIndex.None? || node.value.valueIndex.value >= |node.value.values| then None
    else Some(node.value.values[node.value.valueIndex.value])
  }

  lemma EmptyRefines(n: nat)
    ensures Refines(Some(EmptyConfig(n)), [], n)
  {
    MissingIsEmpty(n);
    forall path ensures Slots(Some(EmptyConfig(n)), n, path) == FlatSlots([], n, path) {
      assert Slots(None, n, path) == Nulls(n);
      assert FlatSlots([], n, path) == Nulls(n);
    }
  }

  /** The tree after a batch is the flat maps after the batch. */
  lemma StepRefines(before: Option<Configuration>, after: Option<Configuration>, history: seq<Batch>, batch: Batch,
                    n: nat)
    requires Refines(before, history, n) && WellFormed(after, n)
    requires Applied(before, after, n, batch.provider, EntriesOf(batch.events))
    ensures Refines(after, history + [batch], n)
  {
    forall path ensures Slots(after, n, path) == FlatSlots(history + [batch], n, path) {
      var value := Latest(EntriesOf(batch.events), path);
      assert SlotWritten(Slots(before, n, path), Slots(after, n, path), batch.provider, value);
      assert (history + [batch])[..|history|] == history;
      forall p | 0 <= p < n ensures Slots(after, n, path)[p] == FlatSlots(history + [batch], n, path)[p] {
        assert Slots(before, n, path)[p] == FlatSlots(history, n, path)[p];
      }
    }
  }

  /** A dropped root is replaced by an empty configuration, which reads alike. */
  lemma MissingRefines(history: seq<Batch>, n: nat)
    requires Refines(None, history, n)
    ensures Refines(Some(EmptyConfig(n)), history, n)
  {
    MissingIsEmpty(n);
    forall path ensures Slots(Some(EmptyConfig(n)), n, path) == FlatSlots(history, n, path) {
      assert Slots(None, n, path) == FlatSlots(history, n, path);
    }
  }

  /** Reading the cached winner is choosing among the flat maps. */
  lemma ReadsWinner(node: Option<Configuration>, history: seq<Batch>, n: nat, path: Keys)
    requires Refines(node, history, n)
    ensures Read(NodeAt(node, path)) == Winner(history, n, path)
  {
    assert Slots(node, n, path) == FlatSlots(history, n, path);
    assert NodeAt(node, path).Some? ==> NodeOk(NodeAt(node, path).value, n);
    if NodeAt(node, path).None? {
      assert LastNonNull(Nulls(n)).None?;
    }
  }

  // ----- Laws of the flat maps, and so of every configuration -----

  lemma SettingAppend(history: seq<Batch>, batch: Batch, provider: nat, path: Keys)
    ensures Setting(history + [batch], provider, path) ==
      var value := Latest(EntriesOf(batch.events), path);
      if batch.provider == provider && value.Some? then value.value else Setting(history, provider, path)
  {
    assert (history + [batch])[..|history|] == history;
  }

  /** Each event in a batch of its own. */
  function Singles(provider: nat, events: seq<Event>): (r: seq<Batch>)
    ensures |r| == |events|
  {
    seq(|events|, i requires 0 <= i < |events| => Batch(provider, [events[i]]))
  }

  lemma LatestOfLast(events: seq<Event>, path: Keys)
    requires events != []
    ensures var init, last := events[..|events| - 1], events[|events| - 1];
      Latest(EntriesOf(events), path) ==
        if KeysOf(last.path) == path then Some(last.value) else Latest(EntriesOf(init), path)
  {
    var init := events[..|events| - 1];
    assert EntriesOf(events)[..|events| - 1] == EntriesOf(init);
  }

  /** A batch does what its events do one at a time. */
  lemma {:induction false} BatchIsItsEvents(history: seq<Batch>, provider: nat, events: seq<Event>, p: nat, path: Keys)
    ensures Setting(history + [Batch(provider, events)], p, path)
         == Setting(history + Singles(provider, events), p, path)
    decreases |events|
  {
    SettingAppend(history, Batch(provider, events), p, path);
    if events == [] {
      assert history + Singles(provider, events) == history;
    } else {
      var init, last := events[..|events| - 1], events[|events| - 1];
      BatchIsItsEvents(history, provider, init, p, path);
      SettingAppend(history, Batch(provider, init), p, path);
      assert history + Singles(provider, events) == history + Singles(provider, init) + [Batch(provider, [last])];
      SettingAppend(history + Singles(provider, init), Batch(provider, [last]), p, path);
      LatestOfLast(events, path);
      LatestOfLast([last], path);
    }
  }

  lemma {:induction false} SameSettingsLast(a: seq<Batch>, b: seq<Batch>, later: seq<Batch>, p: nat, path: Keys)
    requires Setting(a, p, path) == Setting(b, p, path)
    ensures Setting(a + later, p, path) == Setting(b + later, p, path)
    decreases |later|
  {
    if later == [] {
      assert a + later == a && b + later == b;
    } else {
      var init, last := later[..|later| - 1], later[|later| - 1];
      SameSettingsLast(a, b, init, p, path);
      assert a + later == a + init + [last] && b + later == b + init + [last];
      SettingAppend(a + init, last, p, path);
      SettingAppend(b + init, last, p, path);
    }
  }

  /** Batches of different providers commute, whatever comes before and after. */
  lemma ProvidersCommute(history: seq<Batch>, x: Batch, y: Batch, later: seq<Batch>, n: nat, path: Keys)
    requires x.provider != y.provider
    ensures Winner(history + [x] + [y] + later, n, path) == Winner(history + [y] + [x] + later, n, path)
  {
    forall p | 0 <= p < n
      ensures Setting(history + [x] + [y] + later, p, path) == Setting(history + [y] + [x] + later, p, path)
    {
      SettingAppend(history + [x], y, p, path);
      SettingAppend(history, x, p, path);
      SettingAppend(history + [y], x, p, path);
      SettingAppend(history, y, p, path);
      SameSettingsLast(history + [x] + [y], history + [y] + [x], later, p, path);
    }
    assert FlatSlots(history + [x] + [y] + later, n, path) == FlatSlots(history + [y] + [x] + later, n, path);
  }

  /** All that a provider wrote, in order. */
  function EventsOf(history: seq<Batch>, provider: nat): seq<Event>
    decreases |history|
  {
    if history == [] then []
    else
      var batch := history[|history| - 1];
      EventsOf(history[..|history| - 1], provider) + if batch.provider == provider then batch.events else []
  }

  lemma {:induction false} LatestConcat(a: seq<Event>, b: seq<Event>, path: Keys)
    ensures Latest(EntriesOf(a + b), path) ==
      if Latest(EntriesOf(b), path).Some? then Latest(EntriesOf(b), path) else Latest(EntriesOf(a), path)
    decreases |b|
  {
    if b == [] {
      assert a + b == a;
    } else {
      assert (a + b)[..|a + b| - 1] == a + b[..|b| - 1];
      LatestConcat(a, b[..|b| - 1], path);
      LatestOfLast(a + b, path);
      LatestOfLast(b, path);
    }
  }

  /** A provider's setting is the last value it wrote, however its writes were cut into
      batches and whatever others wrote in between. */
  lemma {:induction false} SettingIsLatest(history: seq<Batch>, p: nat, path: Keys)
    ensures var value := Latest(EntriesOf(EventsOf(history, p)), path);
      Setting(history, p, path) == if value.Some? then value.value else Null
    decreases |history|
  {
    if history != [] {
      var init, batch := history[..|history| - 1], history[|history| - 1];
      SettingIsLatest(init, p, path);
      if batch.provider == p {
        LatestConcat(EventsOf(init, p), batch.events, path);
      } else {
        assert EventsOf(init, p) + [] == EventsOf(init, p);
      }
    }
  }

  /** Two configurations whose providers wrote the same, however it was cut into batches
      and however the providers took turns, read alike. */
  lemma BatchingIsInvisible(one: Option<Configuration>, other: Option<Configuration>, history: seq<Batch>,
                            history': seq<Batch>, n: nat, path: Keys)
    requires Refines(one, history, n) && Refines(other, history', n)
    requires forall p :: 0 <= p < n ==> EventsOf(history, p) == EventsOf(history', p)
    ensures Read(NodeAt(one, path)) == Read(NodeAt(other, path))
  {
    ReadsWinner(one, history, n, path);
    ReadsWinner(other, history', n, path);
    forall p | 0 <= p < n ensures Setting(history, p, path) == Setting(history', p, path) {
      assert EventsOf(history, p) == EventsOf(history', p);
      SettingIsLatest(history, p, path);
      SettingIsLatest(history', p, path);
    }
    assert FlatSlots(history, n, path) == FlatSlots(history', n, path);
  }

  // ----- What is read, in the words of the events -----

  /** The last value written at a path that is the same as the one asked for. */
  function WrittenAt(events: seq<Event>, path: seq<Value>): Option<Value>
    decreases |events|
  {
    if events == [] then None
    else
      var last := events[|events| - 1];
      if SamePath(last.path, path) then Some(last.value) else WrittenAt(events[..|events| - 1], path)
  }

  function LastWritten(history: seq<Batch>, provider: nat, path: seq<Value>): Option<Value> {
    WrittenAt(EventsOf(history, provider), path)
  }

  predicate Unwritten(history: seq<Batch>, provider: nat, path: seq<Value>) {
    LastWritten(history, provider, path) in {None, Some(Null)}
  }

  /** The highest provider that last wrote something other than null there. */
  predicate Tops(history: seq<Batch>, n: nat, path: seq<Value>, p: nat) {
    p < n && !Unwritten(history, p, path) && forall higher :: p < higher < n ==> Unwritten(history, higher, path)
  }

  /** What reading a path must give. */
  ghost predicate Reads(history: seq<Batch>, n: nat, path: seq<Value>, r: Option<Value>) {
    match r
    case None => forall p :: 0 <= p < n ==> Unwritten(history, p, path)
    case Some(v) => exists p: nat :: Tops(history, n, path, p) && LastWritten(history, p, path) == Some(v)
  }

  lemma {:induction false} LatestIsWritten(events: seq<Event>, path: seq<Value>)
    ensures Latest(EntriesOf(events), KeysOf(path)) == WrittenAt(events, path)
    decreases |events|
  {
    if events != [] {
      LatestIsWritten(events[..|events| - 1], path);
      LatestOfLast(events, KeysOf(path));
      SamePathKeys(events[|events| - 1].path, path);
    }
  }

  lemma SettingIsWritten(history: seq<Batch>, p: nat, path: seq<Value>)
    ensures Setting(history, p, KeysOf(path)) == if LastWritten(history, p, path).Some?
      then LastWritten(history, p, path).value else Null
  {
    SettingIsLatest(history, p, KeysOf(path));
    LatestIsWritten(EventsOf(history, p), path);
  }

  lemma WinnerReads(history: seq<Batch>, n: nat, path: seq<Value>)
    ensures Reads(history, n, path, Winner(history, n, KeysOf(path)))
  {
    var winner := Winner(history, n, KeysOf(path));
    forall p: nat ensures Unwritten(history, p, path) <==> Setting(history, p, KeysOf(path)) == Null {
      SettingIsWritten(history, p, path);
    }
    if winner.Some? {
      var p: nat :| Wins(history, n, KeysOf(path), p) && winner.value == Setting(history, p, KeysOf(path));
      SettingIsWritten(history, p, path);
      assert Tops(history, n, path, p);
    }
  }

  lemma {:induction false} SamePathsWrittenAlike(events: seq<Event>, a: seq<Value>, b: seq<Value>)
    requires SamePath(a, b)
    ensures WrittenAt(events, a) == WrittenAt(events, b)
    decreases |events|
  {
    if events != [] {
      SamePathsWrittenAlike(events[..|events| - 1], a, b);
      var path := events[|events| - 1].path;
      SamePathKeys(a, b);
      SamePathKeys(path, a);
      SamePathKeys(path, b);
    }
  }

  /** Paths that are the same read alike, after any history. */
  lemma SamePathsReadAlike(history: seq<Batch>, n: nat, a: seq<Value>, b: seq<Value>, r: Option<Value>,
                           r': Option<Value>)
    requires SamePath(a, b) && Reads(history, n, a, r) && Reads(history, n, b, r')
    ensures r == r'
  {
    forall p: nat
      ensures LastWritten(history, p, a) == LastWritten(history, p, b)
      ensures Unwritten(history, p, a) <==> Unwritten(history, p, b)
    {
      SamePathsWrittenAlike(EventsOf(history, p), a, b);
    }
    if q: nat :| Tops(history, n, b, q) { assert !Unwritten(history, q, a); }
    if r.Some? && r'.Some? {
      var p: nat :| Tops(history, n, a, p) && LastWritten(history, p, a) == r;
      var q: nat :| Tops(history, n, b, q) && LastWritten(history, q, b) == r';
      assert !Unwritten(history, p, b) && !Unwritten(history, q, a);
    }
  }

  // ----- The handle -----

  /** The current snapshot, replaced batch by batch. */
  class ConfigHandle {
    const numLayers: nat
    var snapshot: Configuration
    ghost var history: seq<Batch>

    ghost predicate Valid()
      reads this
    {
      |snapshot.values| == numLayers && Refines(Some(snapshot), history, numLayers)
    }

    constructor (numLayers: nat)
      ensures Valid() && history == [] && this.numLayers == numLayers
    {
      this.numLayers := numLayers;
      snapshot := EmptyConfig(numLayers);
      history := [];
      EmptyRefines(numLayers);
    }

    method ApplyBatch(provider: nat, events: seq<Event>)
      requires Valid() && provider < numLayers
      modifies this
      ensures Valid() && history == old(history) + [Batch(provider, events)]
      ensures old(TidyBelow(snapshot)) ==>
        (TidyBelow(snapshot) <==> !LeavesBare(Some(old(snapshot)), EntriesOf(events)))
    {
      var applied := AppliedBatch(snapshot, provider, events);
      StepRefines(Some(snapshot), applied, history, Batch(provider, events), numLayers);
      history := history + [Batch(provider, events)];
      match applied {
        case Some(updated) =>
          snapshot := updated;
        case None =>
          MissingRefines(history, numLayers);
          snapshot := EmptyConfig(numLayers);
      }
      assert NodeAt(Some(snapshot), []) == Some(snapshot);
    }

    /** Follows a path down the tree and reads the cached winner there. */
    method Get(path: seq<Value>) returns (r: Option<Value>)
      requires Valid()
      ensures r == Winner(history, numLayers, KeysOf(path)) && Reads(history, numLayers, path, r)
    {
      WinnerReads(history, numLayers, path);
      var keys := KeysOf(path);
      var cursor := Some(snapshot);
      for i := 0 to |keys|
        invariant NodeAt(cursor, keys[i..]) == NodeAt(Some(snapshot), keys)
      {
        assert keys[i..][1..] == keys[i + 1..];
        cursor := if cursor.None? then None else Child(cursor.value.children, keys[i]);
      }
      ReadsWinner(Some(snapshot), history, numLayers, keys);
      r := Read(cursor);
    }
  }
}
