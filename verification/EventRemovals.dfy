/** When the removal of an invalidated handler is sure to follow. */
module EventRemovals {
  import EM = EventMap
  import EQ = EventQueue
  import EL = EventLifecycle
  import opened EventRuns

  /** In every run, every invalidation of the caller's handlers is followed by their
      removal, made or still queued. */
  ghost predicate AlwaysRemoved(cap: nat, caller: string) {
    forall w, j: nat | Leads(Init(cap), w) && j < |w.history| && w.history[j] == EM.Null(caller) :: RemovalComes(w, j)
  }

  /** A queue full of registrations. */
  lemma {:induction false} Fill(w: World, t: World, n: nat, m: EQ.Msg) returns (u: World)
    requires Leads(w, t) && !t.q.aborted && m.Add? && |t.q.queue| + n == t.q.cap
    requires forall x | x in t.q.queue :: x.Add?
    ensures Leads(w, u) && u == t.(q := t.q.(queue := u.q.queue))
    ensures |u.q.queue| == u.q.cap && forall x | x in u.q.queue :: x.Add?
    decreases n
  {
    if n == 0 {
      u := t;
    } else {
      LeadsOn(w, t, Queue(EQ.PostAdd(m.event, m.entry)));
      u := Fill(w, Next(t, Queue(EQ.PostAdd(m.event, m.entry))), n - 1, m);
    }
  }

  function Once(caller: string): nat -> seq<EM.Deed> {
    (n: nat) => [EM.Deregister(caller)]
  }

  /** A single handler that deregisters its caller. */
  lemma DispatchOnce(m: EM.Handlers, event: string, entry: EM.Entry, caller: string)
    requires m == map[event := [entry]] && event != EM.ANY && entry.active
    ensures EM.Dispatch(m, event, Once(caller)).posted == [EM.Deregister(caller)]
  {
    var r0 := EM.Loop(m, [], []);
    var called := r0.(calls := [entry]);
    assert r0.calls + [entry] == [entry];
    EM.PerformNulls(called, [EM.Deregister(caller)], event);
    EM.PerformNulls(called, [EM.Deregister(caller)], EM.ANY);
    var r1 := EM.AfterCall(r0, entry, Once(caller));
    assert r1 == EM.Perform(called, [EM.Deregister(caller)]);
    assert EM.Walk(r0, event, 0, Once(caller)) == EM.Walk(r1, event, 1, Once(caller)) == r1;
    assert EM.Walk(r1, EM.ANY, 0, Once(caller)) == r1;
    assert [] + [EM.Deregister(caller)] == [EM.Deregister(caller)];
  }

  /** The event task is about to run a handler, and the queue is full. */
  lemma BusyIsReached(cap: nat, entry: EM.Entry) returns (w: World)
    requires cap > 0
    ensures Leads(Init(cap), w) && !w.q.aborted && |w.q.queue| == w.q.cap && (forall x | x in w.q.queue :: x.Add?)
    ensures w.handlers == map["e" := [entry]] && w.history == [EM.Add("e", entry)]
    ensures w.q.current == EQ.Current(EQ.Signal(0, "e"), EQ.Callbacks)
  {
    var w0 := Init(cap);
    LeadsNowhere(w0);
    LeadsOn(w0, w0, Queue(EQ.PostAdd("e", entry)));
    var w1 := Next(w0, Queue(EQ.PostAdd("e", entry)));
    assert w1.q.queue == [EQ.Add("e", entry)];
    LeadsOn(w0, w1, Take);
    ChangedOnce(w1.handlers, w1.q.queue[0]);
    var w2 := Next(w1, Take);
    assert [] + [entry] == [entry] && w2.handlers == map["e" := [entry]];
    assert w2.history == [] + [EM.Add("e", entry)] == [EM.Add("e", entry)];
    w := SignalIsTaken(cap, w2);
    w := Fill(w0, w, cap, EQ.Add("e", entry));
  }

  lemma SignalIsTaken(cap: nat, w: World) returns (t: World)
    requires cap > 0 && Leads(Init(cap), w) && w.q.cap == cap && w.q.queue == [] && w.q.nextId == 0
    requires !w.q.aborted && w.q.current.NoCurrent?
    ensures Leads(Init(cap), t) && !t.q.aborted && t.q.queue == [] && t.q.cap == cap
    ensures t.handlers == w.handlers && t.history == w.history
    ensures t.q.current == EQ.Current(EQ.Signal(0, "e"), EQ.Callbacks)
  {
    LeadsOn(Init(cap), w, Queue(EQ.RaiseNow(false, "e")));
    var u := Next(w, Queue(EQ.RaiseNow(false, "e")));
    assert u.q.queue == [EQ.Signal(0, "e")];
    LeadsOn(Init(cap), u, Take);
    t := Next(u, Take);
    assert w.history + [] == w.history;
  }

  /** The handler deregisters a caller whose name passes for a ticker: its handlers
      are invalidated, but the message that would remove them is lost. */
  lemma RemovalIsLost(cap: nat, caller: string) returns (w: World)
    requires cap > 0 && EQ.IsTicker(caller)
    ensures Leads(Init(cap), w) && |w.history| == 2 && w.history[1] == EM.Null(caller) && !RemovalComes(w, 1)
  {
    var entry := EM.Entry(0, caller, true);
    var t := BusyIsReached(cap, entry);
    var posts := [EQ.PostRemove(caller)];
    DispatchOnce(t.handlers, "e", entry, caller);
    assert posts[1..] == [] && EL.IsRun(EQ.Next(t.q, posts[0]), posts[1..]);
    var deeds := [EM.Deregister(caller)];
    assert deeds[1..] == [] && DeedActions(deeds) == [DeedAction(deeds[0])] + DeedActions([]) == posts;
    assert Within(posts[1..], posts[1..]) && Within(posts, posts);
    assert Nulls(deeds) == [EM.Null(caller)] + Nulls([]) == [EM.Null(caller)];
    LeadsOn(Init(cap), t, Callbacks(Once(caller), posts));
    w := Next(t, Callbacks(Once(caller), posts));
    assert EL.Run(t.q, posts) == EL.Run(EQ.Next(t.q, posts[0]), posts[1..]) == EQ.Next(t.q, posts[0]);
    assert w.q.queue == t.q.queue && w.history == [EM.Add("e", entry)] + [EM.Null(caller)];
  }

  /** The removal of what a callback invalidates is sure to follow exactly for callers
      whose names do not start like a ticker event. */
  lemma AlwaysRemovedIff(cap: nat, caller: string)
    requires cap > 0
    ensures AlwaysRemoved(cap, caller) <==> !EQ.IsTicker(caller)
  {
    if EQ.IsTicker(caller) {
      var w := RemovalIsLost(cap, caller);
    } else {
      forall w, j: nat | Leads(Init(cap), w) && j < |w.history| && w.history[j] == EM.Null(caller)
        ensures RemovalComes(w, j)
      {
        var xs :| IsRun(Init(cap), xs) && Run(Init(cap), xs) == w;
        RunKeepsInv(Init(cap), xs);
      }
    }
  }
}
