/** What a candidate does under a stack of keymaps (keymap.cpp, `resolve_keys`). */
module Resolution {
  import opened Wrappers
  import opened Utf8
  import opened Keymaps

  /** A keymap as the lookup reads it. */
  datatype Table = Table(entries: seq<Entry>, stopsLookup: bool, defaultAction: string)

  datatype Outcome = Hold | Dispatch(action: string) | Nothing

  const SELF_INSERT := "self_insert"

  ghost predicate AllSorted(maps: map<string, Table>) {
    forall name :: name in maps ==> Sorted(maps[name].entries)
  }

  // ----- the plain rule -----

  /** The tables a lookup consults, topmost first: every one that exists, down to and with the first
      that stops it. */
  function Consulted(maps: map<string, Table>, stack: seq<string>): seq<Table> {
    if stack == [] then []
    else
      var below, name := stack[..|stack| - 1], stack[|stack| - 1];
      if name !in maps then Consulted(maps, below)
      else if maps[name].stopsLookup then [maps[name]]
      else [maps[name]] + Consulted(maps, below)
  }

  ghost predicate AnyLonger(tables: seq<Table>, keys: Bytes) {
    exists i :: 0 <= i < |tables| && Longer(tables[i].entries, keys)
  }

  /** The topmost table that binds the keys binds them to this. */
  ghost predicate TopBinds(tables: seq<Table>, keys: Bytes, action: string) {
    exists i :: 0 <= i < |tables| && Binds(tables[i].entries, keys, action)
      && forall j :: 0 <= j < i ==> !Bound(tables[j].entries, keys)
  }

  ghost predicate AnyBound(tables: seq<Table>, keys: Bytes) {
    exists i :: 0 <= i < |tables| && Bound(tables[i].entries, keys)
  }

  ghost predicate TopDefault(tables: seq<Table>, action: string) {
    exists i :: 0 <= i < |tables| && tables[i].defaultAction == action != ""
      && forall j :: 0 <= j < i ==> tables[j].defaultAction == ""
  }

  ghost predicate AnyDefault(tables: seq<Table>) {
    exists i :: 0 <= i < |tables| && tables[i].defaultAction != ""
  }

  predicate Stopped(tables: seq<Table>) {
    tables != [] && tables[|tables| - 1].stopsLookup
  }

  /** Once nothing longer can come: the topmost binding, else for one key alone the topmost default, else
      for a printable under no stop the floor. */
  ghost predicate Settles(tables: seq<Table>, keys: Bytes, printable: bool, out: Outcome) {
    if AnyBound(tables, keys) then out.Dispatch? && TopBinds(tables, keys, out.action)
    else if |keys| != KEY_SIZE then out == Nothing
    else if AnyDefault(tables) then out.Dispatch? && TopDefault(tables, out.action)
    else if !Stopped(tables) && printable then out == Dispatch(SELF_INSERT)
    else out == Nothing
  }

  /** A binding that could still become longer holds, whatever is bound already. */
  ghost predicate Resolves(tables: seq<Table>, keys: Bytes, printable: bool, out: Outcome) {
    if AnyLonger(tables, keys) then out == Hold else Settles(tables, keys, printable, out)
  }

  /** The rule leaves no choice. */
  lemma ResolvesToOne(tables: seq<Table>, keys: Bytes, printable: bool, a: Outcome, b: Outcome)
    requires forall i :: 0 <= i < |tables| ==> Sorted(tables[i].entries)
    requires Resolves(tables, keys, printable, a) && Resolves(tables, keys, printable, b)
    ensures a == b
  {
    hide Longer, Sorted;
    if !AnyLonger(tables, keys) && AnyBound(tables, keys) {
      var i :| 0 <= i < |tables| && Binds(tables[i].entries, keys, a.action)
        && forall j :: 0 <= j < i ==> !Bound(tables[j].entries, keys);
      var j :| 0 <= j < |tables| && Binds(tables[j].entries, keys, b.action)
        && forall k :: 0 <= k < j ==> !Bound(tables[k].entries, keys);
      BindsMeansBound(tables[i].entries, keys, a.action);
      BindsMeansBound(tables[j].entries, keys, b.action);
      assert i == j;
      BindsOne(tables[i].entries, keys, a.action, b.action);
    }
  }

  lemma BindsMeansBound(entries: seq<Entry>, keys: Bytes, action: string)
    requires Binds(entries, keys, action)
    ensures Bound(entries, keys)
  {
  }

  lemma BindsOne(entries: seq<Entry>, keys: Bytes, a: string, b: string)
    requires Sorted(entries) && Binds(entries, keys, a) && Binds(entries, keys, b)
    ensures a == b
  {
    var i :| 0 <= i < |entries| && entries[i] == Entry(keys, a);
    var j :| 0 <= j < |entries| && entries[j] == Entry(keys, b);
    BoundOnce(entries, i, j);
  }

  // ----- the walk -----

  datatype Found = Found(exact: Option<string>, fallback: Option<string>, prefix: bool, floored: bool)

  /** What the walk knows after the tables it has seen. */
  ghost predicate Saw(seen: Found, tables: seq<Table>, keys: Bytes) {
    && (seen.exact.Some? <==> AnyBound(tables, keys))
    && (seen.exact.Some? ==> TopBinds(tables, keys, seen.exact.value))
    && (seen.prefix <==> AnyLonger(tables, keys))
    && (seen.fallback.Some? <==> AnyDefault(tables))
    && (seen.fallback.Some? ==> TopDefault(tables, seen.fallback.value))
  }

  lemma SawOneMore(seen: Found, tables: seq<Table>, keys: Bytes, t: Table, exact: Option<string>, now: Found)
    requires Saw(seen, tables, keys)
    requires (exact.Some? <==> Bound(t.entries, keys)) && (exact.Some? ==> Binds(t.entries, keys, exact.value))
    requires now.exact == if seen.exact.Some? then seen.exact else exact
    requires now.prefix == (seen.prefix || Longer(t.entries, keys))
    requires now.fallback == if seen.fallback.Some? || t.defaultAction == "" then seen.fallback
      else Some(t.defaultAction)
    ensures Saw(now, tables + [t], keys)
  {
    hide Bound, Binds, Longer;
    var more := tables + [t];
    assert forall i :: 0 <= i < |tables| ==> more[i] == tables[i];
    assert more[|tables|] == t;
    if seen.exact.Some? {
      assert TopBinds(more, keys, seen.exact.value);
    } else if exact.Some? {
      assert forall j :: 0 <= j < |tables| ==> !Bound(tables[j].entries, keys);
      assert TopBinds(more, keys, exact.value);
    }
    if seen.fallback.Some? {
      assert TopDefault(more, seen.fallback.value);
    } else if t.defaultAction != "" {
      assert TopDefault(more, t.defaultAction);
    }
    if AnyLonger(tables, keys) {
      assert AnyLonger(more, keys);
    }
    if AnyBound(tables, keys) {
      assert AnyBound(more, keys);
    }
  }

  method WalkStack(maps: map<string, Table>, stack: seq<string>, keys: Bytes) returns (seen: Found)
    requires AllSorted(maps)
    ensures Saw(seen, Consulted(maps, stack), keys) && seen.floored == !Stopped(Consulted(maps, stack))
  {
    hide Saw, Bound, Binds, Longer, Sorted;
    seen := Found(None, None, false, true);
    ghost var walked: seq<Table> := [];
    SawNothing(keys);
    var depth := |stack|;
    assert stack[..depth] == stack;
    while depth > 0
      invariant 0 <= depth <= |stack|
      invariant walked + Consulted(maps, stack[..depth]) == Consulted(maps, stack)
      invariant Saw(seen, walked, keys) && seen.floored
      invariant walked != [] ==> !walked[|walked| - 1].stopsLookup
    {
      depth := depth - 1;
      assert stack[..depth + 1][..depth] == stack[..depth];
      var name := stack[depth];
      if name !in maps {
        continue;
      }
      var table := maps[name];
      ghost var before := seen;
      ghost var bound := Exact(table.entries, keys);
      if seen.exact.None? {
        var exact := ActionFor(table.entries, keys);
        bound := exact;
        seen := seen.(exact := exact);
      }
      if !seen.prefix {
        var longer := HasLonger(table.entries, keys);
        seen := seen.(prefix := longer);
      }
      if seen.fallback.None? && table.defaultAction != "" {
        seen := seen.(fallback := Some(table.defaultAction));
      }
      SawOneMore(before, walked, keys, table, bound, seen);
      ghost var whole := walked + ([table] + Consulted(maps, stack[..depth]));
      assert whole == walked + [table] + Consulted(maps, stack[..depth]);
      walked := walked + [table];
      if table.stopsLookup {
        seen := seen.(floored := false);
        FlooredApart(seen.(floored := true), walked, keys);
        return;
      }
    }
    assert walked + [] == walked;
  }

  lemma FlooredApart(seen: Found, tables: seq<Table>, keys: Bytes)
    requires Saw(seen, tables, keys)
    ensures Saw(seen.(floored := false), tables, keys)
  {
  }

  lemma SawNothing(keys: Bytes)
    ensures Saw(Found(None, None, false, true), [], keys)
  {
  }

  /** The action a table binds, if it does. */
  ghost function Exact(entries: seq<Entry>, keys: Bytes): (action: Option<string>)
    ensures action.Some? <==> Bound(entries, keys)
    ensures action.Some? ==> Binds(entries, keys, action.value)
  {
    if Bound(entries, keys) then
      var i :| 0 <= i < |entries| && entries[i].keys == keys;
      assert entries[i] == Entry(keys, entries[i].action);
      Some(entries[i].action)
    else None
  }

  function Settle(seen: Found, keys: Bytes, printable: bool): Outcome {
    if seen.exact.Some? then Dispatch(seen.exact.value)
    else if |keys| != KEY_SIZE then Nothing
    else if seen.fallback.Some? then Dispatch(seen.fallback.value)
    else if seen.floored && printable then Dispatch(SELF_INSERT)
    else Nothing
  }

  /** What keys do while more may come. */
  method ResolveKeys(maps: map<string, Table>, stack: seq<string>, keys: Bytes, printable: bool) returns (out: Outcome)
    requires AllSorted(maps)
    ensures Resolves(Consulted(maps, stack), keys, printable, out)
  {
    var seen := WalkStack(maps, stack, keys);
    if seen.prefix {
      return Hold;
    }
    return Settle(seen, keys, printable);
  }

  predicate IsSelfInserting(k: Key) {
    k.Code? && !k.modifiers.alt && !k.modifiers.ctrl && k.codepoint >= 0x20 && k.codepoint != 0x7F
  }

  /** What held keys do once the clock has said that nothing longer comes. */
  method ResolveExpiredKeys(maps: map<string, Table>, stack: seq<string>, held: Bytes) returns (out: Outcome)
    requires AllSorted(maps)
    ensures var key := DecodeKey(held);
      Settles(Consulted(maps, stack), held, |held| == KEY_SIZE && key.Some? && IsSelfInserting(key.value), out)
  {
    var printable := false;
    if |held| == KEY_SIZE {
      var key := DecodeKey(held);
      if key.Some? {
        printable := IsSelfInserting(key.value);
      }
    }
    var seen := WalkStack(maps, stack, held);
    return Settle(seen, held, printable);
  }
}
