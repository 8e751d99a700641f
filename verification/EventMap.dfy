/**
 The handler map of the event framework as a function of what was done to it, and
 the callback loop that walks it.
 */
module EventMap {
  /** `EventCallbackEntry`: `active` is false once `m_callback` has been nulled. */
  datatype Entry = Entry(id: nat, caller: string, active: bool)

  type Handlers = map<string, seq<Entry>>

  const ANY := "*"

  /** The list for an event; none is the same as an empty one. */
  function ListOf(m: Handlers, event: string): seq<Entry> {
    if event in m then m[event] else []
  }

  // ------------------------------------------------ the three map operations

  function NullAll(el: seq<Entry>, caller: string): (r: seq<Entry>)
    ensures |r| == |el|
    ensures forall i | 0 <= i < |el| ::
      r[i] == if el[i].caller == caller then el[i].(active := false) else el[i]
  {
    if el == [] then []
    else [if el[0].caller == caller then el[0].(active := false) else el[0]] + NullAll(el[1..], caller)
  }

  function Others(el: seq<Entry>, caller: string): seq<Entry> {
    if el == [] then []
    else if el[0].caller == caller then Others(el[1..], caller)
    else [el[0]] + Others(el[1..], caller)
  }

  function Added(m: Handlers, event: string, entry: Entry): Handlers {
    m[event := ListOf(m, event) + [entry]]
  }

  function Nulled(m: Handlers, caller: string): Handlers {
    map e | e in m :: NullAll(m[e], caller)
  }

  /** Entries of the caller go; so do lists that become empty. */
  function Removed(m: Handlers, caller: string): Handlers {
    map e | e in m && Others(m[e], caller) != [] :: Others(m[e], caller)
  }

  // ------------------------------------------------------------- history

  /** One change of the map, in the order the event task made them. */
  datatype Change = Add(event: string, entry: Entry) | Null(caller: string) | Remove(caller: string)

  function Apply(m: Handlers, x: Change): Handlers {
    match x
    case Add(event, entry) => Added(m, event, entry)
    case Null(caller) => Nulled(m, caller)
    case Remove(caller) => Removed(m, caller)
  }

  function MapAfter(h: seq<Change>): Handlers
    decreases |h|
  {
    if h == [] then map[] else Apply(MapAfter(h[..|h| - 1]), h[|h| - 1])
  }

  /** Does `h[i]` register a handler for the event that nothing later in the
      history invalidates or removes? */
  ghost predicate Stands(h: seq<Change>, i: nat, event: string) {
    && i < |h| && h[i].Add? && h[i].event == event && h[i].entry.active
    && forall j | i < j < |h| :: !Kills(h[j], h[i].entry.caller)
  }

  predicate Kills(x: Change, caller: string) {
    (x.Null? || x.Remove?) && x.caller == caller
  }

  /** The standing handlers from the `i`-th change on, in registration order. */
  ghost function Standing(h: seq<Change>, event: string, i: nat): seq<Entry>
    requires i <= |h|
    decreases |h| - i
  {
    if i == |h| then []
    else if Stands(h, i, event) then [h[i].entry] + Standing(h, event, i + 1)
    else Standing(h, event, i + 1)
  }

  /** The handlers of a list that would be called. */
  function Callable(el: seq<Entry>): seq<Entry> {
    if el == [] then []
    else if el[0].active then [el[0]] + Callable(el[1..])
    else Callable(el[1..])
  }

  // lemmas about the list functions

  lemma {:induction false} CallableAppend(a: seq<Entry>, b: seq<Entry>)
    ensures Callable(a + b) == Callable(a) + Callable(b)
  {
    if a == [] {
      assert a + b == b;
    } else {
      CallableAppend(a[1..], b);
      assert (a + b)[1..] == a[1..] + b;
    }
  }

  /** Nulling and removing leave the same handlers to call. */
  lemma {:induction false} KillLeavesOthers(el: seq<Entry>, caller: string)
    ensures Callable(NullAll(el, caller)) == Others(Callable(el), caller)
    ensures Callable(Others(el, caller)) == Others(Callable(el), caller)
  {
    if el != [] {
      KillLeavesOthers(el[1..], caller);
      assert NullAll(el, caller)[1..] == NullAll(el[1..], caller);
    }
  }

  /** A kill after the history filters its standing handlers. */
  lemma {:induction false} StandingKilled(h: seq<Change>, x: Change, event: string, i: nat)
    requires i <= |h| && (x.Null? || x.Remove?)
    ensures Standing(h + [x], event, i) == Others(Standing(h, event, i), x.caller)
    decreases |h| - i
  {
    var h' := h + [x];
    if i == |h| {
      assert !Stands(h', i, event) && Standing(h', event, i + 1) == [];
    } else {
      StandingKilled(h, x, event, i + 1);
      assert h'[i] == h[i];
      assert Stands(h', i, event) <==> Stands(h, i, event) && !Kills(x, h[i].entry.caller) by {
        assert forall j | i < j < |h| :: h'[j] == h[j];
        if Stands(h', i, event) { assert !Kills(h'[|h|], h'[i].entry.caller); }
      }
    }
  }

  /** A registration after the history joins at the end. */
  lemma {:induction false} StandingAdded(h: seq<Change>, x: Change, event: string, i: nat)
    requires i <= |h| && x.Add?
    ensures Standing(h + [x], event, i) ==
      Standing(h, event, i) + if x.event == event && x.entry.active then [x.entry] else []
    decreases |h| - i
  {
    var h' := h + [x];
    if i == |h| {
      assert h'[i] == x && Standing(h', event, i + 1) == [];
    } else {
      StandingAdded(h, x, event, i + 1);
      assert h'[i] == h[i];
      assert Stands(h', i, event) <==> Stands(h, i, event) by {
        assert forall j | i < j < |h| :: h'[j] == h[j];
        if Stands(h, i, event) {
          forall j | i < j < |h'| ensures !Kills(h'[j], h'[i].entry.caller) {
            if j < |h| { assert h'[j] == h[j]; }
          }
        }
      }
    }
  }

  /** The map refines its history: the handlers a signal would call are those
      registered for it and not invalidated or removed since, in the order of
      their registration. */
  lemma {:induction false} MapRefinesHistory(h: seq<Change>, event: string)
    ensures Callable(ListOf(MapAfter(h), event)) == Standing(h, event, 0)
    decreases |h|
  {
    if h != [] {
      var g, x := h[..|h| - 1], h[|h| - 1];
      assert h == g + [x];
      MapRefinesHistory(g, event);
      var el := ListOf(MapAfter(g), event);
      match x
      case Add(e, entry) =>
        StandingAdded(g, x, event, 0);
        CallableAppend(el, [entry]);
      case Null(caller) =>
        StandingKilled(g, x, event, 0);
        KillLeavesOthers(el, caller);
      case Remove(caller) =>
        StandingKilled(g, x, event, 0);
        KillLeavesOthers(el, caller);
    }
  }

  /** No list in the map is empty. */
  lemma {:induction false} NoEmptyLists(h: seq<Change>)
    ensures forall e | e in MapAfter(h) :: MapAfter(h)[e] != []
    decreases |h|
  {
    if h != [] { NoEmptyLists(h[..|h| - 1]); }
  }

  // ----------------------------------------------------------- callback loop

  /** What a callback asks of the event framework. Registrations and removals are
      only posted to the queue; a deregistration also nulls at once. */
  datatype Deed = Register(event: string, entry: Entry) | Deregister(caller: string) | Raise(phased: bool, event: string)

  /** The state of a running `HandleQueueSignalEvent`. */
  datatype Loop = Loop(handlers: Handlers, posted: seq<Deed>, calls: seq<Entry>)

  function Perform(r: Loop, deeds: seq<Deed>): Loop
    decreases |deeds|
  {
    if deeds == [] then r
    else Perform(
      (if deeds[0].Deregister? then r.(handlers := Nulled(r.handlers, deeds[0].caller)) else r)
        .(posted := r.posted + [deeds[0]]),
      deeds[1..])
  }

  /** Callers that a callback deregisters. */
  ghost predicate Drops(deeds: seq<Deed>, caller: string) {
    Deregister(caller) in deeds
  }

  lemma {:induction false} PerformNulls(r: Loop, deeds: seq<Deed>, event: string)
    ensures var r' := Perform(r, deeds);
      && r'.calls == r.calls && r'.posted == r.posted + deeds
      && |ListOf(r'.handlers, event)| == |ListOf(r.handlers, event)|
      && r'.handlers.Keys == r.handlers.Keys
      && forall i | 0 <= i < |ListOf(r.handlers, event)| ::
           ListOf(r'.handlers, event)[i] ==
             if Drops(deeds, ListOf(r.handlers, event)[i].caller)
             then ListOf(r.handlers, event)[i].(active := false) else ListOf(r.handlers, event)[i]
    decreases |deeds|
  {
    if deeds != [] {
      var d := deeds[0];
      var r1 := (if d.Deregister? then r.(handlers := Nulled(r.handlers, d.caller)) else r).(posted := r.posted + [d]);
      PerformNulls(r1, deeds[1..], event);
      var (el, el1) := (ListOf(r.handlers, event), ListOf(r1.handlers, event));
      assert r.posted + deeds == r1.posted + deeds[1..];
      forall i | 0 <= i < |el| ensures el1[i].caller == el[i].caller && (Drops(deeds, el[i].caller) <==>
        d == Deregister(el[i].caller) || Drops(deeds[1..], el[i].caller))
      {
        DropsFirst(deeds, el[i].caller);
      }
    }
  }

  lemma DropsFirst(deeds: seq<Deed>, caller: string)
    requires deeds != []
    ensures Drops(deeds, caller) <==> deeds[0] == Deregister(caller) || Drops(deeds[1..], caller)
  {
    assert deeds == [deeds[0]] + deeds[1..];
  }

  /** The loop after a call of `entry`, the n-th of this signal. */
  function AfterCall(r: Loop, entry: Entry, script: nat -> seq<Deed>): Loop {
    Perform(r.(calls := r.calls + [entry]), script(|r.calls|))
  }

  /** One of the two loops: visit the list's entries from the `i`-th on, calling
      those whose callback is set when their turn comes.  `script` says what the
      n-th callback of this signal does. */
  function Walk(r: Loop, event: string, i: nat, script: nat -> seq<Deed>): Loop
    requires i <= |ListOf(r.handlers, event)|
    decreases |ListOf(r.handlers, event)| - i
  {
    if i == |ListOf(r.handlers, event)| then r
    else
      var entry := ListOf(r.handlers, event)[i];
      if !entry.active then Walk(r, event, i + 1, script)
      else
        PerformNulls(r.(calls := r.calls + [entry]), script(|r.calls|), event);
        Walk(AfterCall(r, entry, script), event, i + 1, script)
  }

  /** `HandleQueueSignalEvent`: the event's own list, then the list for any event. */
  function Dispatch(m: Handlers, event: string, script: nat -> seq<Deed>): Loop {
    Walk(Walk(Loop(m, [], []), event, 0, script), ANY, 0, script)
  }

  /** Has one of the first `n` callbacks of this signal deregistered the caller? */
  ghost predicate Dropped(script: nat -> seq<Deed>, n: nat, caller: string) {
    exists c: nat :: c < n && Drops(script(c), caller)
  }

  /** An entry as it is after `n` callbacks. */
  ghost function Later(entry: Entry, script: nat -> seq<Deed>, n: nat): Entry {
    if Dropped(script, n, entry.caller) then entry.(active := false) else entry
  }

  /** The loop has changed nothing in the map but the callbacks it nulled. */
  ghost predicate Tracks(m: Handlers, r: Loop, script: nat -> seq<Deed>) {
    && r.handlers.Keys == m.Keys
    && (forall e :: |ListOf(r.handlers, e)| == |ListOf(m, e)|)
    && (forall e, j | 0 <= j < |ListOf(m, e)| :: ListOf(r.handlers, e)[j] == Later(ListOf(m, e)[j], script, |r.calls|))
  }

  lemma CallTracks(m: Handlers, r: Loop, entry: Entry, script: nat -> seq<Deed>)
    requires Tracks(m, r, script)
    ensures Tracks(m, AfterCall(r, entry, script), script)
  {
    var n := |r.calls|;
    var r1 := r.(calls := r.calls + [entry]);
    var r2 := Perform(r1, script(n));
    PerformNulls(r1, script(n), ANY);
    forall e ensures |ListOf(r2.handlers, e)| == |ListOf(m, e)| {
      PerformNulls(r1, script(n), e);
    }
    forall e, j | 0 <= j < |ListOf(m, e)|
      ensures ListOf(r2.handlers, e)[j] == Later(ListOf(m, e)[j], script, n + 1)
    {
      PerformNulls(r1, script(n), e);
      var caller := ListOf(m, e)[j].caller;
      assert Dropped(script, n + 1, caller) <==> Dropped(script, n, caller) || Drops(script(n), caller);
    }
  }

  /** Is the entry's callback set when its turn comes, `before` being the positions
      called so far in this list and `n` the number of earlier calls? */
  ghost predicate Due(entry: Entry, p: nat, pos: seq<nat>, n: nat, script: nat -> seq<Deed>) {
    && entry.active && !Dropped(script, n, entry.caller)
    && forall k: nat | k < |pos| && pos[k] < p :: !Drops(script(n + k), entry.caller)
  }

  ghost predicate Increasing(pos: seq<nat>) {
    forall i, j | 0 <= i < j < |pos| :: pos[i] < pos[j]
  }

  /** `calls` continues `before` with the entries of `el` at the given positions. */
  ghost predicate CalledAt(el: seq<Entry>, pos: seq<nat>, i: nat, before: seq<Entry>, calls: seq<Entry>) {
    && Increasing(pos) && (forall k | 0 <= k < |pos| :: i <= pos[k] < |el|)
    && |calls| == |before| + |pos| && before <= calls
    && (forall k | 0 <= k < |pos| :: calls[|before| + k] == el[pos[k]])
  }

  /** Exactly the entries due are among the positions. */
  ghost predicate AllDue(el: seq<Entry>, pos: seq<nat>, i: nat, n: nat, script: nat -> seq<Deed>) {
    forall p: nat | i <= p < |el| :: p in pos <==> Due(el[p], p, pos, n, script)
  }

  lemma CalledAtMore(el: seq<Entry>, rest: seq<nat>, i: nat, before: seq<Entry>, calls: seq<Entry>)
    requires i < |el| && CalledAt(el, rest, i + 1, before + [el[i]], calls)
    ensures CalledAt(el, [i] + rest, i, before, calls)
  {
    var pos := [i] + rest;
    var n := |before|;
    assert (before + [el[i]])[..n] == before;
    forall k | 0 <= k < |pos| ensures calls[n + k] == el[pos[k]] {
      if k == 0 { assert calls[n] == (before + [el[i]])[n]; }
      else { assert calls[|before + [el[i]]| + (k - 1)] == el[rest[k - 1]]; }
    }
  }

  lemma AllDueMore(el: seq<Entry>, rest: seq<nat>, i: nat, n: nat, script: nat -> seq<Deed>)
    requires i < |el| && (forall k | 0 <= k < |rest| :: i < rest[k])
    requires el[i].active && !Dropped(script, n, el[i].caller)
    requires AllDue(el, rest, i + 1, n + 1, script)
    ensures AllDue(el, [i] + rest, i, n, script)
  {
    forall p: nat | i <= p < |el| ensures p in [i] + rest <==> Due(el[p], p, [i] + rest, n, script) {
      WalkDue(el[p], p, i, rest, n, script);
    }
  }

  lemma AllDueSkip(el: seq<Entry>, pos: seq<nat>, i: nat, n: nat, script: nat -> seq<Deed>)
    requires i < |el| && (forall k | 0 <= k < |pos| :: i < pos[k])
    requires !el[i].active || Dropped(script, n, el[i].caller)
    requires AllDue(el, pos, i + 1, n, script)
    ensures AllDue(el, pos, i, n, script)
  {
    assert !Due(el[i], i, pos, n, script);
  }

  /** One turn of the loop: the entry is called exactly when it was valid at the
      start and its caller has not been deregistered since. */
  lemma WalkTurn(m: Handlers, r: Loop, event: string, i: nat, script: nat -> seq<Deed>)
    requires Tracks(m, r, script) && i < |ListOf(m, event)|
    ensures i < |ListOf(r.handlers, event)|
    ensures var entry := ListOf(m, event)[i]; var r1 := AfterCall(r, entry, script);
      if entry.active && !Dropped(script, |r.calls|, entry.caller)
      then && Tracks(m, r1, script) && r1.calls == r.calls + [entry]
           && i + 1 <= |ListOf(r1.handlers, event)|
           && Walk(r, event, i, script) == Walk(r1, event, i + 1, script)
      else Walk(r, event, i, script) == Walk(r, event, i + 1, script)
  {
    var entry := ListOf(r.handlers, event)[i];
    assert entry == Later(ListOf(m, event)[i], script, |r.calls|);
    if entry.active {
      PerformNulls(r.(calls := r.calls + [entry]), script(|r.calls|), event);
      CallTracks(m, r, entry, script);
    }
  }

  /** One loop calls exactly the entries due, in list order. */
  lemma {:induction false} WalkCalls(m: Handlers, r: Loop, event: string, i: nat, script: nat -> seq<Deed>)
    returns (pos: seq<nat>)
    requires Tracks(m, r, script) && i <= |ListOf(m, event)|
    ensures i <= |ListOf(r.handlers, event)|
    ensures var r' := Walk(r, event, i, script);
      && Tracks(m, r', script)
      && CalledAt(ListOf(m, event), pos, i, r.calls, r'.calls)
      && AllDue(ListOf(m, event), pos, i, |r.calls|, script)
    decreases |ListOf(m, event)| - i
  {
    var el := ListOf(m, event);
    if i == |el| {
      pos := [];
    } else {
      WalkTurn(m, r, event, i, script);
      if el[i].active && !Dropped(script, |r.calls|, el[i].caller) {
        pos := WalkCalls(m, AfterCall(r, el[i], script), event, i + 1, script);
        WalkedMore(el, pos, i, r.calls, Walk(r, event, i, script).calls, script);
        pos := [i] + pos;
      } else {
        pos := WalkCalls(m, r, event, i + 1, script);
        AllDueSkip(el, pos, i, |r.calls|, script);
      }
    }
  }

  lemma WalkedMore(el: seq<Entry>, rest: seq<nat>, i: nat, before: seq<Entry>, calls: seq<Entry>, script: nat -> seq<Deed>)
    requires i < |el| && el[i].active && !Dropped(script, |before|, el[i].caller)
    requires CalledAt(el, rest, i + 1, before + [el[i]], calls)
    requires AllDue(el, rest, i + 1, |before + [el[i]]|, script)
    ensures CalledAt(el, [i] + rest, i, before, calls)
    ensures AllDue(el, [i] + rest, i, |before|, script)
  {
    CalledAtMore(el, rest, i, before, calls);
    AllDueMore(el, rest, i, |before|, script);
  }

  /** Counting the call at position `i` as an earlier one or as the first. */
  lemma WalkDue(entry: Entry, p: nat, i: nat, rest: seq<nat>, n: nat, script: nat -> seq<Deed>)
    requires i <= p && forall k | 0 <= k < |rest| :: i < rest[k]
    ensures i < p ==> (Due(entry, p, [i] + rest, n, script) <==> Due(entry, p, rest, n + 1, script))
    ensures i == p ==> (Due(entry, p, [i] + rest, n, script) <==> entry.active && !Dropped(script, n, entry.caller))
  {
    var pos := [i] + rest;
    assert forall k: nat | k < |rest| :: pos[k + 1] == rest[k];
    if i < p {
      assert Dropped(script, n + 1, entry.caller) <==> Dropped(script, n, entry.caller) || Drops(script(n), entry.caller);
      if Due(entry, p, rest, n + 1, script) {
        forall k: nat | k < |pos| && pos[k] < p ensures !Drops(script(n + k), entry.caller) {
          if k > 0 { assert rest[k - 1] < p; assert n + 1 + (k - 1) == n + k; }
        }
      }
      if Due(entry, p, pos, n, script) {
        assert pos[0] < p && !Drops(script(n + 0), entry.caller);
        forall k: nat | k < |rest| && rest[k] < p ensures !Drops(script(n + 1 + k), entry.caller) {
          assert pos[k + 1] < p && n + (k + 1) == n + 1 + k;
        }
      }
    }
  }

  /** The callbacks run for a signal.  With `all` the event's own list followed by
      the list for any event, both as they were when the signal was taken, they are
      called in that order; an entry is called exactly when it was valid at the
      start and no callback called before it deregistered its caller.  The loop
      never changes the structure of a list, so a handler registered meanwhile is
      not called. */
  lemma DispatchCalls(m: Handlers, event: string, script: nat -> seq<Deed>) returns (pos: seq<nat>)
    ensures var r := Dispatch(m, event, script); var all := ListOf(m, event) + ListOf(m, ANY);
      && Tracks(m, r, script)
      && CalledAt(all, pos, 0, [], r.calls)
      && AllDue(all, pos, 0, 0, script)
  {
    var r0 := Loop(m, [], []);
    var pos1 := WalkCalls(m, r0, event, 0, script);
    var r1 := Walk(r0, event, 0, script);
    var pos2 := WalkCalls(m, r1, ANY, 0, script);
    var r2 := Walk(r1, ANY, 0, script);
    pos := CalledInTurn(ListOf(m, event), ListOf(m, ANY), pos1, pos2, r1.calls, r2.calls);
    DueInTurn(ListOf(m, event), ListOf(m, ANY), pos1, pos2, pos, script);
  }

  lemma CalledInTurn(own: seq<Entry>, any: seq<Entry>, pos1: seq<nat>, pos2: seq<nat>,
                     calls1: seq<Entry>, calls2: seq<Entry>) returns (pos: seq<nat>)
    requires CalledAt(own, pos1, 0, [], calls1) && CalledAt(any, pos2, 0, calls1, calls2)
    ensures CalledAt(own + any, pos, 0, [], calls2)
    ensures |pos| == |pos1| + |pos2| && pos1 <= pos
    ensures forall k | 0 <= k < |pos2| :: pos[|pos1| + k] == |own| + pos2[k]
  {
    pos := pos1 + seq(|pos2|, k requires 0 <= k < |pos2| => |own| + pos2[k]);
    forall k | 0 <= k < |pos| ensures calls2[0 + k] == (own + any)[pos[k]] {
      if k < |pos1| { assert calls2[k] == calls1[0 + k] == own[pos1[k]]; }
      else { assert calls2[|calls1| + (k - |pos1|)] == any[pos2[k - |pos1|]]; }
    }
  }

  lemma DueInTurn(own: seq<Entry>, any: seq<Entry>, pos1: seq<nat>, pos2: seq<nat>, pos: seq<nat>,
                  script: nat -> seq<Deed>)
    requires AllDue(own, pos1, 0, 0, script) && AllDue(any, pos2, 0, |pos1|, script)
    requires forall k | 0 <= k < |pos1| :: pos1[k] < |own|
    requires |pos| == |pos1| + |pos2| && pos1 <= pos
    requires forall k | 0 <= k < |pos2| :: pos[|pos1| + k] == |own| + pos2[k]
    ensures AllDue(own + any, pos, 0, 0, script)
  {
    var all := own + any;
    forall p: nat | p < |all| ensures p in pos <==> Due(all[p], p, pos, 0, script) {
      if p < |own| {
        forall k | |pos1| <= k < |pos| ensures pos[k] > p {
          assert pos[|pos1| + (k - |pos1|)] == |own| + pos2[k - |pos1|];
        }
        OwnDue(all[p], p, pos1, pos, script);
      } else {
        AnyDue(all[p], p - |own|, |own|, pos1, pos2, pos, script);
      }
    }
  }

  lemma OwnDue(entry: Entry, p: nat, pos1: seq<nat>, pos: seq<nat>, script: nat -> seq<Deed>)
    requires pos1 <= pos && forall k | |pos1| <= k < |pos| :: pos[k] > p
    ensures Due(entry, p, pos, 0, script) <==> Due(entry, p, pos1, 0, script)
    ensures p in pos <==> p in pos1
  {
    if p in pos {
      var k :| 0 <= k < |pos| && pos[k] == p;
      assert pos1[k] == p;
    }
    if p in pos1 {
      var k :| 0 <= k < |pos1| && pos1[k] == p;
      assert pos[k] == p;
    }
    if Due(entry, p, pos, 0, script) {
      forall k: nat | k < |pos1| && pos1[k] < p ensures !Drops(script(0 + k), entry.caller) {
        assert pos[k] < p;
      }
    }
  }

  lemma AnyDue(entry: Entry, q: nat, base: nat, pos1: seq<nat>, pos2: seq<nat>, pos: seq<nat>, script: nat -> seq<Deed>)
    requires forall k | 0 <= k < |pos1| :: pos1[k] < base
    requires |pos| == |pos1| + |pos2| && pos1 <= pos
    requires forall k | 0 <= k < |pos2| :: pos[|pos1| + k] == base + pos2[k]
    ensures Due(entry, base + q, pos, 0, script) <==> Due(entry, q, pos2, |pos1|, script)
    ensures base + q in pos <==> q in pos2
  {
    var p, n := base + q, |pos1|;
    if p in pos {
      var k :| 0 <= k < |pos| && pos[k] == p;
      assert k >= n && pos2[k - n] == q;
    }
    if q in pos2 {
      var k :| 0 <= k < |pos2| && pos2[k] == q;
      assert pos[n + k] == p;
    }
    if Due(entry, p, pos, 0, script) {
      forall c: nat | c < n ensures !Drops(script(c), entry.caller) {
        assert pos[c] < p && !Drops(script(0 + c), entry.caller);
      }
      forall k: nat | k < |pos2| && pos2[k] < q ensures !Drops(script(n + k), entry.caller) {
        assert pos[n + k] < p && !Drops(script(0 + (n + k)), entry.caller);
      }
    }
    if Due(entry, q, pos2, n, script) {
      forall k: nat | k < |pos| && pos[k] < p ensures !Drops(script(0 + k), entry.caller) {
        if k >= n { assert pos2[k - n] < q && !Drops(script(n + (k - n)), entry.caller); }
      }
    }
  }
}
