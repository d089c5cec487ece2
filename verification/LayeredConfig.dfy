/** Layered configuration: a pruned tree whose nodes hold one slot per provider. */
module LayeredConfig {
  import opened Wrappers
  import opened ConfigValues

  /** Path segments are the keys of their values. */
  type Keys = seq<Value>

  datatype Event = Event(path: seq<Value>, value: Value)

  datatype Entry = Entry(path: Keys, value: Value)

  datatype Configuration = Configuration(
    values: seq<Value>,
    valueIndex: Option<nat>,
    children: map<Value, Configuration>)

  // ----- Reading -----

  function Nulls(n: nat): (r: seq<Value>)
    ensures |r| == n && forall i :: 0 <= i < n ==> r[i] == Null
  {
    seq(n, _ => Null)
  }

  function EmptyConfig(n: nat): Configuration {
    Configuration(Nulls(n), None, map[])
  }

  function Child(children: map<Value, Configuration>, key: Value): Option<Configuration> {
    if key in children then Some(children[key]) else None
  }

  function NodeAt(node: Option<Configuration>, path: Keys): Option<Configuration>
    decreases |path|
  {
    if node.None? || path == [] then node
    else NodeAt(Child(node.value.children, path[0]), path[1..])
  }

  /** Every provider's slot at a path; a missing node stands for nulls. */
  function Slots(node: Option<Configuration>, n: nat, path: Keys): seq<Value> {
    match NodeAt(node, path)
    case None => Nulls(n)
    case Some(c) => c.values
  }

  /** The winner of a path: the last slot that is not null. */
  function LastNonNull(values: seq<Value>): (r: Option<nat>)
    ensures r.Some? ==> r.value < |values| && values[r.value] != Null
    ensures r.Some? ==> forall i :: r.value < i < |values| ==> values[i] == Null
    ensures r.None? ==> forall i :: 0 <= i < |values| ==> values[i] == Null
  {
    LastBelow(values, |values|)
  }

  function LastBelow(values: seq<Value>, n: nat): (r: Option<nat>)
    requires n <= |values|
    ensures r.Some? ==> r.value < n && values[r.value] != Null
    ensures r.Some? ==> forall i :: r.value < i < n ==> values[i] == Null
    ensures r.None? ==> forall i :: 0 <= i < n ==> values[i] == Null
  {
    if n == 0 then None
    else if values[n - 1] != Null then Some(n - 1)
    else LastBelow(values, n - 1)
  }

  ghost predicate NodeOk(c: Configuration, n: nat) {
    |c.values| == n && c.valueIndex == LastNonNull(c.values)
  }

  /** Every node has all its slots, and its cached winner is right. */
  ghost predicate WellFormed(node: Option<Configuration>, n: nat) {
    forall path :: NodeAt(node, path).Some? ==> NodeOk(NodeAt(node, path).value, n)
  }

  // ----- What a batch must do -----

  /** The last value that entries give a path. */
  function Latest(entries: seq<Entry>, path: Keys): Option<Value>
    decreases |entries|
  {
    if entries == [] then None
    else if entries[|entries| - 1].path == path then Some(entries[|entries| - 1].value)
    else Latest(entries[..|entries| - 1], path)
  }

  function Written(slots: seq<Value>, provider: nat, value: Option<Value>): seq<Value>
    requires provider < |slots|
  {
    if value.Some? then slots[provider := value.value] else slots
  }

  /** One provider's slots change, at the paths of the batch, to the batch's last
      values; nothing else does. */
  ghost predicate Applied(before: Option<Configuration>, after: Option<Configuration>, n: nat, provider: nat,
                          entries: seq<Entry>) {
    forall path :: SlotWritten(Slots(before, n, path), Slots(after, n, path), provider, Latest(entries, path))
  }

  ghost predicate SlotWritten(before: seq<Value>, after: seq<Value>, provider: nat, value: Option<Value>) {
    provider < |before| && after == Written(before, provider, value)
  }

  // ----- Grouping by the first segment -----

  function Under(key: Value, path: Keys): Keys {
    [key] + path
  }

  ghost predicate Fits(entries: seq<Entry>, depth: nat) {
    forall i :: 0 <= i < |entries| ==> |entries[i].path| <= depth
  }

  function Group(byChild: map<Value, seq<Entry>>, key: Value): seq<Entry> {
    if key in byChild then byChild[key] else []
  }

  ghost predicate GroupedAt(entries: seq<Entry>, group: seq<Entry>, key: Value, path: Keys) {
    Latest(group, path) == Latest(entries, Under(key, path))
  }

  ghost predicate Grouped(entries: seq<Entry>, here: Option<Value>, byChild: map<Value, seq<Entry>>) {
    && here == Latest(entries, [])
    && forall key, path :: GroupedAt(entries, Group(byChild, key), key, path)
  }

  /** The entries below a child, seen from there. */
  function Sub(entries: seq<Entry>, key: Value): seq<Entry>
    decreases |entries|
  {
    if entries == [] then []
    else
      var last := entries[|entries| - 1];
      Sub(entries[..|entries| - 1], key) +
        if last.path != [] && last.path[0] == key then [Entry(last.path[1..], last.value)] else []
  }

  ghost predicate GroupedAll(entries: seq<Entry>, byChild: map<Value, seq<Entry>>) {
    forall key :: Group(byChild, key) == Sub(entries, key) && (key in byChild <==> Sub(entries, key) != [])
  }

  lemma SubAppend(entries: seq<Entry>, e: Entry, key: Value)
    ensures Sub(entries + [e], key) ==
      Sub(entries, key) + if e.path != [] && e.path[0] == key then [Entry(e.path[1..], e.value)] else []
  {
    assert (entries + [e])[..|entries|] == entries;
  }

  lemma GroupedOneMore(entries: seq<Entry>, byChild: map<Value, seq<Entry>>, e: Entry)
    requires GroupedAll(entries, byChild)
    ensures e.path == [] ==> GroupedAll(entries + [e], byChild)
    ensures e.path != [] ==>
      GroupedAll(entries + [e], byChild[e.path[0] := Group(byChild, e.path[0]) + [Entry(e.path[1..], e.value)]])
  {
    forall key
      ensures Sub(entries + [e], key) ==
        Sub(entries, key) + if e.path != [] && e.path[0] == key then [Entry(e.path[1..], e.value)] else []
    {
      SubAppend(entries, e, key);
    }
  }

  lemma LatestAppend(entries: seq<Entry>, e: Entry, path: Keys)
    ensures Latest(entries + [e], path) == if e.path == path then Some(e.value) else Latest(entries, path)
  {
    assert (entries + [e])[..|entries|] == entries;
  }

  lemma GroupedHere(entries: seq<Entry>, here: Option<Value>, byChild: map<Value, seq<Entry>>, e: Entry)
    requires Grouped(entries, here, byChild) && e.path == []
    ensures Grouped(entries + [e], Some(e.value), byChild)
  {
    LatestAppend(entries, e, []);
    forall key, path ensures GroupedAt(entries + [e], Group(byChild, key), key, path) {
      assert GroupedAt(entries, Group(byChild, key), key, path);
      LatestAppend(entries, e, Under(key, path));
    }
  }

  lemma GroupedChildAt(entries: seq<Entry>, group: seq<Entry>, e: Entry, key: Value, path: Keys)
    requires e.path != []
    requires GroupedAt(entries, group, key, path)
    ensures GroupedAt(entries + [e], if key == e.path[0] then group + [Entry(e.path[1..], e.value)] else group,
                      key, path)
  {
    LatestAppend(entries, e, Under(key, path));
    LatestAppend(group, Entry(e.path[1..], e.value), path);
    assert e.path == Under(e.path[0], e.path[1..]);
    assert Under(key, path)[0] == key && Under(key, path)[1..] == path;
  }

  lemma GroupedChild(entries: seq<Entry>, here: Option<Value>, byChild: map<Value, seq<Entry>>, e: Entry)
    requires Grouped(entries, here, byChild) && e.path != []
    ensures var sub := Group(byChild, e.path[0]) + [Entry(e.path[1..], e.value)];
      Grouped(entries + [e], here, byChild[e.path[0] := sub])
  {
    var byChild' := byChild[e.path[0] := Group(byChild, e.path[0]) + [Entry(e.path[1..], e.value)]];
    LatestAppend(entries, e, []);
    forall key, path ensures GroupedAt(entries + [e], Group(byChild', key), key, path) {
      GroupedChildAt(entries, Group(byChild, key), e, key, path);
    }
  }

  method GroupEntries(entries: seq<Entry>, ghost depth: nat)
    returns (here: Option<Value>, byChild: map<Value, seq<Entry>>)
    requires Fits(entries, depth)
    ensures Grouped(entries, here, byChild) && GroupedAll(entries, byChild)
    ensures forall key :: key in byChild ==> depth > 0 && Fits(byChild[key], depth - 1)
  {
    here, byChild := None, map[];
    for i := 0 to |entries|
      invariant Grouped(entries[..i], here, byChild) && GroupedAll(entries[..i], byChild)
      invariant forall key :: key in byChild ==> depth > 0 && Fits(byChild[key], depth - 1)
    {
      var e := entries[i];
      assert entries[..i + 1] == entries[..i] + [e];
      GroupedOneMore(entries[..i], byChild, e);
      if e.path != [] {
        GroupedChild(entries[..i], here, byChild, e);
        byChild := byChild[e.path[0] := Group(byChild, e.path[0]) + [Entry(e.path[1..], e.value)]];
      } else {
        GroupedHere(entries[..i], here, byChild, e);
        here := Some(e.value);
      }
    }
    assert entries[..|entries|] == entries;
  }

  // ----- Nodes that hold nothing -----

  predicate Bare(c: Configuration) {
    c.valueIndex.None? && c.children == map[]
  }

  ghost predicate NotBare(node: Option<Configuration>) {
    node.Some? ==> !Bare(node.value)
  }

  /** No node is bare. */
  ghost predicate Tidy(node: Option<Configuration>) {
    forall path :: NotBare(NodeAt(node, path))
  }

  /** No node below the root is bare. */
  ghost predicate TidyBelow(c: Configuration) {
    forall key :: Tidy(Child(c.children, key))
  }

  /** Some entry is at the path or below. */
  ghost predicate Touches(entries: seq<Entry>, path: Keys) {
    exists i :: 0 <= i < |entries| && path <= entries[i].path
  }

  /** A path that the entries touch, and unset. */
  ghost predicate Unset(entries: seq<Entry>, path: Keys) {
    Touches(entries, path) ==> Latest(entries, path) == Some(Null)
  }

  /** Where there was no node, the entries leave none: they unset all they touch. */
  ghost predicate Vanishes(entries: seq<Entry>) {
    forall path :: Unset(entries, path)
  }

  /** In every child. */
  ghost predicate AllVanish(entries: seq<Entry>) {
    forall key :: Vanishes(Sub(entries, key))
  }

  /** At every path below one. */
  ghost predicate VanishesBelow(entries: seq<Entry>, root: Keys) {
    forall path :: root < path ==> Unset(entries, path)
  }

  /** There was no node, no entry is for it, and those below leave nothing. */
  ghost predicate LeftBare(node: Option<Configuration>, entries: seq<Entry>, path: Keys) {
    && NodeAt(node, path).None?
    && Touches(entries, path) && Latest(entries, path).None?
    && VanishesBelow(entries, path)
  }

  ghost predicate LeavesBare(node: Option<Configuration>, entries: seq<Entry>) {
    exists path :: LeftBare(node, entries, path)
  }

  /** What applying entries does to the shape of a tree. */
  ghost predicate Shaped(before: Option<Configuration>, after: Option<Configuration>, entries: seq<Entry>) {
    && (Tidy(before) ==> (Tidy(after) <==> !LeavesBare(before, entries)))
    && (before.None? && entries != [] ==> (after.None? <==> Vanishes(entries)))
    && (entries == [] ==> after == before)
  }

  ghost predicate ChildrenShaped(before: map<Value, Configuration>, after: map<Value, Configuration>,
                                 byChild: map<Value, seq<Entry>>) {
    forall key :: Shaped(Child(before, key), Child(after, key), Group(byChild, key))
  }

  /** Of a node: bare nodes below come from the entries, and a node that was bare stays
      so, or goes, by what its entries are. */
  ghost predicate NodeShaped(before: Configuration, after: Option<Configuration>, entries: seq<Entry>) {
    && (TidyBelow(before) ==>
        ((after.Some? ==> TidyBelow(after.value)) <==> !LeavesBare(Some(before), entries)))
    && (Bare(before) && entries != [] ==>
        && (after.None? <==> Vanishes(entries))
        && (after.Some? && Bare(after.value) <==> LeftBare(None, entries, [])))
    && (after.Some? ==> after.value == before || !Bare(after.value))
  }

  lemma {:induction false} SubIs(entries: seq<Entry>, key: Value, path: Keys)
    ensures Latest(Sub(entries, key), path) == Latest(entries, Under(key, path))
    ensures Touches(Sub(entries, key), path) <==> Touches(entries, Under(key, path))
    decreases |entries|
  {
    if entries != [] {
      var init, e := entries[..|entries| - 1], entries[|entries| - 1];
      assert entries == init + [e];
      SubIs(init, key, path);
      SubAppend(init, e, key);
      LatestAppend(init, e, Under(key, path));
      TouchesAppend(init, e, Under(key, path));
      if e.path != [] && e.path[0] == key {
        LatestAppend(Sub(init, key), Entry(e.path[1..], e.value), path);
        TouchesAppend(Sub(init, key), Entry(e.path[1..], e.value), path);
        assert e.path == Under(key, e.path[1..]);
        UnderPrefix(key, path, e.path[1..]);
        assert Under(key, path) == Under(key, e.path[1..]) <==> path == e.path[1..] by {
          assert Under(key, path)[1..] == path;
        }
      } else {
        assert Sub(init, key) + [] == Sub(init, key);
      }
    }
  }

  lemma TouchesAppend(entries: seq<Entry>, e: Entry, path: Keys)
    ensures Touches(entries + [e], path) <==> Touches(entries, path) || path <= e.path
  {
    assert (entries + [e])[|entries|] == e;
    assert forall i :: 0 <= i < |entries| ==> (entries + [e])[i] == entries[i];
  }

  lemma UnderPrefix(key: Value, a: Keys, b: Keys)
    ensures Under(key, a) <= Under(key, b) <==> a <= b
    ensures Under(key, a) < Under(key, b) <==> a < b
  {
    assert Under(key, a)[1..] == a && Under(key, b)[1..] == b;
    if a <= b { assert Under(key, b)[..|a| + 1] == Under(key, a); }
    if Under(key, a) <= Under(key, b) { assert a == Under(key, b)[..|a| + 1][1..] == b[..|a|]; }
  }

  lemma UnsetUnder(entries: seq<Entry>, key: Value)
    ensures Vanishes(Sub(entries, key)) <==> forall path :: Unset(entries, Under(key, path))
  {
    forall path ensures Unset(Sub(entries, key), path) <==> Unset(entries, Under(key, path)) {
      SubIs(entries, key, path);
    }
  }

  /** Entries unset all that they touch below the root if they do so in every child. */
  lemma UnsetBelow(entries: seq<Entry>)
    ensures VanishesBelow(entries, []) <==> AllVanish(entries)
  {
    if VanishesBelow(entries, []) {
      forall key ensures Vanishes(Sub(entries, key)) {
        UnsetUnder(entries, key);
        assert forall path :: [] < Under(key, path);
      }
    }
    if AllVanish(entries) {
      forall path | [] < path ensures Unset(entries, path) {
        assert Vanishes(Sub(entries, path[0]));
        UnsetUnder(entries, path[0]);
        assert path == Under(path[0], path[1..]);
      }
    }
  }

  lemma VanishesIff(entries: seq<Entry>)
    requires entries != []
    ensures Vanishes(entries) <==> Latest(entries, []) == Some(Null) && AllVanish(entries)
  {
    UnsetBelow(entries);
    assert [] <= entries[0].path;
    assert Unset(entries, []) <==> Latest(entries, []) == Some(Null);
  }

  lemma VanishesUnder(entries: seq<Entry>, key: Value, path: Keys)
    ensures VanishesBelow(entries, Under(key, path)) <==> VanishesBelow(Sub(entries, key), path)
  {
    forall below ensures Unset(Sub(entries, key), below) <==> Unset(entries, Under(key, below)) {
      SubIs(entries, key, below);
    }
    if VanishesBelow(entries, Under(key, path)) {
      forall below | path < below ensures Unset(Sub(entries, key), below) {
        UnderPrefix(key, path, below);
      }
    }
    if VanishesBelow(Sub(entries, key), path) {
      forall below | Under(key, path) < below ensures Unset(entries, below) {
        assert below == Under(key, below[1..]);
        UnderPrefix(key, path, below[1..]);
        assert Unset(Sub(entries, key), below[1..]);
      }
    }
  }

  /** Whether a path is left bare is decided in the child it leads to. */
  lemma LeftBareBelow(c: Configuration, entries: seq<Entry>, key: Value, path: Keys)
    ensures LeftBare(Some(c), entries, Under(key, path))
       <==> LeftBare(Child(c.children, key), Sub(entries, key), path)
  {
    assert Under(key, path)[0] == key && Under(key, path)[1..] == path;
    SubIs(entries, key, path);
    VanishesUnder(entries, key, path);
  }

  lemma LeavesBareBelow(c: Configuration, entries: seq<Entry>)
    ensures LeavesBare(Some(c), entries) <==> exists key :: LeavesBare(Child(c.children, key), Sub(entries, key))
  {
    if LeavesBare(Some(c), entries) {
      var path :| LeftBare(Some(c), entries, path);
      assert path == Under(path[0], path[1..]);
      LeftBareBelow(c, entries, path[0], path[1..]);
      assert LeavesBare(Child(c.children, path[0]), Sub(entries, path[0]));
    }
    if key :| LeavesBare(Child(c.children, key), Sub(entries, key)) {
      var path :| LeftBare(Child(c.children, key), Sub(entries, key), path);
      LeftBareBelow(c, entries, key, path);
    }
  }

  lemma NothingLeftBare(node: Option<Configuration>)
    ensures !LeavesBare(node, [])
  {
  }

  lemma TidyIff(c: Configuration)
    ensures Tidy(Some(c)) <==> !Bare(c) && TidyBelow(c)
  {
    assert NodeAt(Some(c), []) == Some(c);
    forall key, path ensures NodeAt(Some(c), Under(key, path)) == NodeAt(Child(c.children, key), path) {
      assert Under(key, path)[0] == key && Under(key, path)[1..] == path;
    }
    if !Bare(c) && TidyBelow(c) {
      forall path ensures NotBare(NodeAt(Some(c), path)) {
        if path != [] {
          assert Tidy(Child(c.children, path[0]));
          assert NodeAt(Some(c), path) == NodeAt(Child(c.children, path[0]), path[1..]);
        }
      }
    }
    if Tidy(Some(c)) {
      forall key, path ensures NotBare(NodeAt(Child(c.children, key), path)) {
        assert NotBare(NodeAt(Some(c), Under(key, path)));
      }
    }
  }

  /** A missing child with entries of its own is left bare if those below vanish. */
  lemma StartedBareIff(entries: seq<Entry>)
    requires entries != []
    ensures LeftBare(None, entries, [])
       <==> Latest(entries, []).None? && AllVanish(entries)
  {
    assert [] <= entries[0].path;
    UnsetBelow(entries);
  }

  lemma ChildrenTidyIff(c: Configuration, after: map<Value, Configuration>, entries: seq<Entry>,
                        byChild: map<Value, seq<Entry>>)
    requires GroupedAll(entries, byChild) && ChildrenShaped(c.children, after, byChild) && TidyBelow(c)
    ensures (forall key :: Tidy(Child(after, key))) <==> !LeavesBare(Some(c), entries)
  {
    forall key ensures Tidy(Child(after, key)) <==> !LeavesBare(Child(c.children, key), Sub(entries, key)) {
      assert Shaped(Child(c.children, key), Child(after, key), Group(byChild, key));
    }
    LeavesBareBelow(c, entries);
  }

  lemma ChildrenVanishIff(after: map<Value, Configuration>, entries: seq<Entry>, byChild: map<Value, seq<Entry>>)
    requires GroupedAll(entries, byChild) && ChildrenShaped(map[], after, byChild)
    ensures after == map[] <==> AllVanish(entries)
  {
    forall key ensures Child(after, key).None? <==> Vanishes(Sub(entries, key)) {
      assert Shaped(Child(map[], key), Child(after, key), Group(byChild, key));
    }
    if AllVanish(entries) {
      forall key ensures key !in after { assert Child(after, key).None?; }
    }
  }

  /** The shape of a node follows from its children's. */
  lemma NodeShapes(before: Configuration, updated: Configuration, after: Option<Configuration>, entries: seq<Entry>,
                   byChild: map<Value, seq<Entry>>)
    requires GroupedAll(entries, byChild) && ChildrenShaped(before.children, updated.children, byChild)
    requires Bare(before) ==> (updated.valueIndex.None? <==> Latest(entries, []) in {None, Some(Null)})
    requires after.None? ==> Bare(updated)
    requires after.Some? ==> after.value == updated && (updated == before || !Bare(updated))
    requires Bare(before) && Bare(updated) ==> (after.None? <==> Latest(entries, []).Some?)
    ensures NodeShaped(before, after, entries)
  {
    if TidyBelow(before) {
      ChildrenTidyIff(before, updated.children, entries, byChild);
      if after.None? {
        forall key ensures Tidy(Child(updated.children, key)) {}
      }
    }
    if Bare(before) && entries != [] {
      ChildrenVanishIff(updated.children, entries, byChild);
      VanishesIff(entries);
      StartedBareIff(entries);
    }
  }

  /** A missing child is shaped as one started from an empty node is. */
  lemma StartedShapes(n: nat, after: Option<Configuration>, entries: seq<Entry>)
    requires NodeShaped(EmptyConfig(n), after, entries) && entries != []
    ensures Shaped(None, after, entries)
  {
    var c := EmptyConfig(n);
    assert LastNonNull(Nulls(n)).None?;
    forall path ensures LeftBare(None, entries, path) <==>
      (path == [] && LeftBare(None, entries, [])) || LeftBare(Some(c), entries, path)
    {
      if path != [] { assert NodeAt(Some(c), path) == NodeAt(None, path[1..]) == None; }
    }
    if after.Some? { TidyIff(after.value); }
  }

  lemma ChildShapes(c: Configuration, after: Option<Configuration>, entries: seq<Entry>)
    requires NodeShaped(c, after, entries) && (entries == [] ==> after == Some(c))
    ensures Shaped(Some(c), after, entries)
  {
    TidyIff(c);
    if after.Some? { TidyIff(after.value); }
  }

  /** Unsetting a path whose parent was not there leaves the parent bare. */
  lemma UnsetLeavesBare(n: nat, a: Value, b: Value)
    ensures LeavesBare(Some(EmptyConfig(n)), [Entry([a, b], Null)])
  {
    var entries := [Entry([a, b], Null)];
    assert [a] <= entries[0].path;
    assert forall path :: Latest(entries, path) == if path == [a, b] then Some(Null) else None by {
      assert entries == [] + entries;
      forall path ensures Latest(entries, path) == if path == [a, b] then Some(Null) else None {
        LatestAppend([], entries[0], path);
      }
    }
    forall below | [a] < below ensures Unset(entries, below) {
      if Touches(entries, below) {
        assert below <= [a, b] && |below| == 2;
        assert below == [a, b];
      }
    }
    assert NodeAt(Some(EmptyConfig(n)), [a]) == None;
    assert LeftBare(Some(EmptyConfig(n)), entries, [a]);
  }

  // ----- Applying a batch -----

  /** Replaces one slot and finds the new winner, searching from the end. */
  method UpdateSlot(values: seq<Value>, slot: nat, newValue: Value) returns (next: seq<Value>, index: Option<nat>)
    requires slot < |values|
    ensures next == values[slot := newValue] && index == LastNonNull(next)
  {
    next := values[slot := newValue];
    var i: nat := |next|;
    while i > 0
      invariant i <= |next| && LastNonNull(next) == LastBelow(next, i)
    {
      i := i - 1;
      if next[i] != Null {
        return next, Some(i);
      }
    }
    index := None;
  }

  ghost predicate ChildrenOk(children: map<Value, Configuration>, n: nat) {
    forall key :: WellFormed(Child(children, key), n)
  }

  /** Every child has its group of entries applied. */
  ghost predicate ChildrenApplied(before: map<Value, Configuration>, after: map<Value, Configuration>, n: nat,
                                  provider: nat, byChild: map<Value, seq<Entry>>) {
    forall key :: Applied(Child(before, key), Child(after, key), n, provider, Group(byChild, key))
  }

  lemma MissingIsEmpty(n: nat)
    ensures WellFormed(Some(EmptyConfig(n)), n)
    ensures forall path :: Slots(None, n, path) == Slots(Some(EmptyConfig(n)), n, path)
  {
    forall path ensures path != [] ==> NodeAt(Some(EmptyConfig(n)), path) == None {
      if path != [] {
        assert NodeAt(None, path[1..]) == None;
      }
    }
  }

  lemma NoEntries(node: Option<Configuration>, n: nat, provider: nat)
    requires WellFormed(node, n) && provider < n
    ensures Applied(node, node, n, provider, [])
  {
  }

  lemma ChildrenAreOk(c: Configuration, n: nat)
    requires WellFormed(Some(c), n)
    ensures NodeOk(c, n) && ChildrenOk(c.children, n)
  {
    assert NodeAt(Some(c), []) == Some(c);
    forall key, path ensures NodeAt(Some(c), Under(key, path)) == NodeAt(Child(c.children, key), path) {
      assert Under(key, path)[0] == key && Under(key, path)[1..] == path;
    }
  }

  lemma NodeIsOk(c: Configuration, n: nat)
    requires NodeOk(c, n) && ChildrenOk(c.children, n)
    ensures WellFormed(Some(c), n)
  {
    forall path | NodeAt(Some(c), path).Some? ensures NodeOk(NodeAt(Some(c), path).value, n) {
      if path != [] {
        assert WellFormed(Child(c.children, path[0]), n);
        assert NodeAt(Some(c), path) == NodeAt(Child(c.children, path[0]), path[1..]);
      }
    }
  }

  lemma SlotsBelow(c: Configuration, n: nat, path: Keys)
    ensures Slots(Some(c), n, path) == if path == [] then c.values else Slots(Child(c.children, path[0]), n, path[1..])
  {
  }

  /** A node's slots and its children's make up the whole. */
  lemma NodeApplied(before: Configuration, after: Configuration, n: nat, provider: nat, entries: seq<Entry>,
                    here: Option<Value>, byChild: map<Value, seq<Entry>>)
    requires Grouped(entries, here, byChild)
    requires provider < |before.values| && after.values == Written(before.values, provider, here)
    requires ChildrenApplied(before.children, after.children, n, provider, byChild)
    ensures Applied(Some(before), Some(after), n, provider, entries)
  {
    forall path
      ensures SlotWritten(Slots(Some(before), n, path), Slots(Some(after), n, path), provider, Latest(entries, path))
    {
      SlotsBelow(before, n, path);
      SlotsBelow(after, n, path);
      if path != [] {
        var key, rest := path[0], path[1..];
        assert path == Under(key, rest);
        assert Applied(Child(before.children, key), Child(after.children, key), n, provider, Group(byChild, key));
        assert GroupedAt(entries, Group(byChild, key), key, rest);
      }
    }
  }

  lemma AllNullIsMissing(c: Configuration, n: nat)
    requires NodeOk(c, n) && c.valueIndex.None? && c.children == map[]
    ensures forall path :: Slots(Some(c), n, path) == Slots(None, n, path)
  {
    forall path ensures Slots(Some(c), n, path) == Slots(None, n, path) {
      SlotsBelow(c, n, path);
    }
  }

  /** The children outside `todo` have had their group applied, the others are as they
      were. */
  ghost predicate AppliedBut(before: map<Value, Configuration>, after: map<Value, Configuration>, n: nat,
                             provider: nat, byChild: map<Value, seq<Entry>>, todo: set<Value>) {
    forall key ::
      if key in todo then Child(after, key) == Child(before, key)
      else ChildDone(Child(before, key), Child(after, key), n, provider, Group(byChild, key))
  }

  ghost predicate ChildDone(before: Option<Configuration>, after: Option<Configuration>, n: nat, provider: nat,
                            entries: seq<Entry>) {
    WellFormed(after, n) && Applied(before, after, n, provider, entries) && Shaped(before, after, entries)
  }

  lemma NoneApplied(children: map<Value, Configuration>, n: nat, provider: nat, byChild: map<Value, seq<Entry>>)
    requires ChildrenOk(children, n) && provider < n
    ensures AppliedBut(children, children, n, provider, byChild, byChild.Keys)
  {
    forall key ensures ChildDone(Child(children, key), Child(children, key), n, provider, []) {
      NoEntries(Child(children, key), n, provider);
      NothingLeftBare(Child(children, key));
    }
  }

  lemma OneMoreApplied(before: map<Value, Configuration>, after: map<Value, Configuration>,
                       after': map<Value, Configuration>, n: nat, provider: nat, byChild: map<Value, seq<Entry>>,
                       todo: set<Value>, key: Value)
    requires AppliedBut(before, after, n, provider, byChild, todo)
    requires ChildDone(Child(before, key), Child(after', key), n, provider, Group(byChild, key))
    requires forall other :: other != key ==> Child(after', other) == Child(after, other)
    ensures AppliedBut(before, after', n, provider, byChild, todo - {key})
  {
  }

  lemma AllApplied(before: map<Value, Configuration>, after: map<Value, Configuration>, n: nat, provider: nat,
                   byChild: map<Value, seq<Entry>>)
    requires AppliedBut(before, after, n, provider, byChild, {})
    ensures ChildrenOk(after, n) && ChildrenApplied(before, after, n, provider, byChild)
    ensures ChildrenShaped(before, after, byChild)
  {
    forall key
      ensures ChildDone(Child(before, key), Child(after, key), n, provider, Group(byChild, key))
    {
    }
  }

  /** Applies every group to its child, in any order; a child that comes back empty
      is dropped. */
  method ApplyChildren(children: map<Value, Configuration>, n: nat, provider: nat, byChild: map<Value, seq<Entry>>,
                       ghost depth: nat)
    returns (after: map<Value, Configuration>, changed: bool)
    requires ChildrenOk(children, n) && provider < n
    requires forall key :: key in byChild ==> depth > 0 && Fits(byChild[key], depth - 1) && byChild[key] != []
    ensures ChildrenOk(after, n) && ChildrenApplied(children, after, n, provider, byChild)
    ensures ChildrenShaped(children, after, byChild)
    ensures !changed ==> after == children
    ensures children == map[] && changed ==> after != map[]
    decreases depth, 0
  {
    after, changed := children, false;
    var todo := byChild.Keys;
    NoneApplied(children, n, provider, byChild);
    while todo != {}
      invariant todo <= byChild.Keys
      invariant AppliedBut(children, after, n, provider, byChild, todo)
      invariant !changed ==> after == children
      invariant children == map[] && changed ==> after != map[]
      decreases todo
    {
      var key :| key in todo;
      ghost var beforeKey := after;
      var computed := ApplyAtChild(Child(after, key), n, provider, byChild[key], depth - 1);
      match computed {
        case Some(updated) =>
          after := after[key := updated];
          changed := true;
        case None =>
          if key in after {
            after := after - {key};
            changed := true;
          }
      }
      assert Child(after, key) == computed;
      OneMoreApplied(children, beforeKey, after, n, provider, byChild, todo, key);
      todo := todo - {key};
    }
    AllApplied(children, after, n, provider, byChild);
  }

  /** A missing child is started from an empty one. */
  method ApplyAtChild(child: Option<Configuration>, n: nat, provider: nat, entries: seq<Entry>, ghost depth: nat)
    returns (after: Option<Configuration>)
    requires WellFormed(child, n) && provider < n && Fits(entries, depth) && entries != []
    ensures WellFormed(after, n) && Applied(child, after, n, provider, entries)
    ensures Shaped(child, after, entries)
    decreases depth, 2
  {
    match child {
      case Some(c) =>
        after := ApplyAtNode(c, n, provider, entries, depth);
        ChildShapes(c, after, entries);
      case None =>
        MissingIsEmpty(n);
        after := ApplyAtNode(EmptyConfig(n), n, provider, entries, depth);
        StartedShapes(n, after, entries);
    }
  }

  /** A node without values gets its first with a value that is not null. */
  lemma NoneNew(node: Configuration, n: nat, provider: nat, here: Option<Value>, index: Option<nat>)
    requires NodeOk(node, n) && provider < n && index == LastNonNull(Written(node.values, provider, here))
    ensures node.valueIndex.None? ==> (index.None? <==> here in {None, Some(Null)})
  {
    if here.Some? { assert Written(node.values, provider, here)[provider] == here.value; }
  }

  /** Applies entries to a node and what is below it. Nothing is left of a node
      without any value or child, unless nothing about it changed. */
  method ApplyAtNode(node: Configuration, ghost n: nat, provider: nat, entries: seq<Entry>, ghost depth: nat)
    returns (after: Option<Configuration>)
    requires WellFormed(Some(node), n) && provider < n && Fits(entries, depth)
    ensures WellFormed(after, n) && Applied(Some(node), after, n, provider, entries)
    ensures NodeShaped(node, after, entries)
    decreases depth, 1
  {
    ChildrenAreOk(node, n);
    var here, byChild := GroupEntries(entries, depth);
    var newValues, newIndex := node.values, node.valueIndex;
    if here.Some? {
      newValues, newIndex := UpdateSlot(node.values, provider, here.value);
    }
    var newChildren, childrenChanged := ApplyChildren(node.children, |node.values|, provider, byChild, depth);
    var updated := Configuration(newValues, newIndex, newChildren);
    NodeIsOk(updated, n);
    NodeApplied(node, updated, n, provider, entries, here, byChild);
    NoneNew(node, n, provider, here, newIndex);
    if here.None? && !childrenChanged {
      NodeShapes(node, updated, Some(node), entries, byChild);
      return Some(node);
    }
    if newIndex.None? && newChildren == map[] {
      AllNullIsMissing(updated, n);
      NodeShapes(node, updated, None, entries, byChild);
      return None;
    }
    NodeShapes(node, updated, Some(updated), entries, byChild);
    return Some(updated);
  }

  function EntriesOf(events: seq<Event>): (r: seq<Entry>)
    ensures |r| == |events|
  {
    seq(|events|, i requires 0 <= i < |events| => Entry(KeysOf(events[i].path), events[i].value))
  }

  ghost function MaxDepth(entries: seq<Entry>): (depth: nat)
    ensures Fits(entries, depth)
  {
    if entries == [] then 0
    else
      var rest := MaxDepth(entries[..|entries| - 1]);
      var last := |entries[|entries| - 1].path|;
      assert forall i :: 0 <= i < |entries| - 1 ==> entries[i] == entries[..|entries| - 1][i];
      if last > rest then last else rest
  }

  /** Applies a provider's batch; nothing is left when everything is unset. */
  method AppliedBatch(config: Configuration, provider: nat, events: seq<Event>) returns (after: Option<Configuration>)
    requires WellFormed(Some(config), |config.values|) && provider < |config.values|
    ensures WellFormed(after, |config.values|)
    ensures Applied(Some(config), after, |config.values|, provider, EntriesOf(events))
    ensures after.Some? ==> after.value == config || !Bare(after.value)
    ensures TidyBelow(config) ==>
      ((after.Some? ==> TidyBelow(after.value)) <==> !LeavesBare(Some(config), EntriesOf(events)))
  {
    after := ApplyAtNode(config, |config.values|, provider, EntriesOf(events), MaxDepth(EntriesOf(events)));
  }
}
