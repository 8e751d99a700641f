/**
 The event framework as a whole: the queue, the event task and the handler map, over
 runs of any length.  Everybody posts at any time; the event task takes one message
 after the other and, for a signal, calls handlers that post in their turn.
 */
module EventRuns {
  import EM = EventMap
  import EQ = EventQueue
  import EL = EventLifecycle
  import EF = EventFates

  // ------------------------------------------------ the callbacks of one signal

  /** The changes of the map that callbacks make at once. */
  function Nulls(deeds: seq<EM.Deed>): seq<EM.Change> {
    if deeds == [] then []
    else (if deeds[0].Deregister? then [EM.Null(deeds[0].caller)] else []) + Nulls(deeds[1..])
  }

  lemma {:induction false} NullsJoin(a: seq<EM.Deed>, b: seq<EM.Deed>)
    ensures Nulls(a + b) == Nulls(a) + Nulls(b)
  {
    if a == [] {
      assert a + b == b;
    } else {
      NullsJoin(a[1..], b);
      assert (a + b)[1..] == a[1..] + b;
    }
  }

  lemma {:induction false} NullsAre(deeds: seq<EM.Deed>, k: nat)
    requires k < |Nulls(deeds)|
    ensures Nulls(deeds)[k].Null? && EM.Deregister(Nulls(deeds)[k].caller) in deeds
  {
    if deeds[0].Deregister? {
      if k > 0 { NullsAre(deeds[1..], k - 1); }
    } else {
      NullsAre(deeds[1..], k);
    }
  }

  lemma MapAfterMore(h: seq<EM.Change>, x: EM.Change)
    ensures EM.MapAfter(h + [x]) == EM.Apply(EM.MapAfter(h), x)
  {
    assert (h + [x])[..|h|] == h;
  }

  /** What one callback does to the map is a continuation of the map's history. */
  lemma {:induction false} PerformHistory(h: seq<EM.Change>, r: EM.Loop, deeds: seq<EM.Deed>)
    requires r.handlers == EM.MapAfter(h + Nulls(r.posted))
    ensures var r' := EM.Perform(r, deeds); r'.handlers == EM.MapAfter(h + Nulls(r'.posted))
    decreases |deeds|
  {
    if deeds != [] {
      var d := deeds[0];
      var r1 := (if d.Deregister? then r.(handlers := EM.Nulled(r.handlers, d.caller)) else r).(posted := r.posted + [d]);
      NullsJoin(r.posted, [d]);
      assert Nulls([d]) == (if d.Deregister? then [EM.Null(d.caller)] else []) + Nulls([]);
      if d.Deregister? {
        MapAfterMore(h + Nulls(r.posted), EM.Null(d.caller));
        assert (h + Nulls(r.posted)) + [EM.Null(d.caller)] == h + Nulls(r.posted + [d]);
      } else {
        assert Nulls(r.posted + [d]) == Nulls(r.posted);
      }
      PerformHistory(h, r1, deeds[1..]);
    }
  }

  lemma {:induction false} WalkHistory(h: seq<EM.Change>, r: EM.Loop, event: string, i: nat, script: nat -> seq<EM.Deed>)
    requires i <= |EM.ListOf(r.handlers, event)| && r.handlers == EM.MapAfter(h + Nulls(r.posted))
    ensures var r' := EM.Walk(r, event, i, script); r'.handlers == EM.MapAfter(h + Nulls(r'.posted))
    decreases |EM.ListOf(r.handlers, event)| - i
  {
    if i < |EM.ListOf(r.handlers, event)| {
      var entry := EM.ListOf(r.handlers, event)[i];
      if entry.active {
        EM.PerformNulls(r.(calls := r.calls + [entry]), script(|r.calls|), event);
        PerformHistory(h, r.(calls := r.calls + [entry]), script(|r.calls|));
        WalkHistory(h, EM.AfterCall(r, entry, script), event, i + 1, script);
      } else {
        WalkHistory(h, r, event, i + 1, script);
      }
    }
  }

  /** The callbacks of a signal continue the map's history with their invalidations. */
  lemma DispatchHistory(h: seq<EM.Change>, event: string, script: nat -> seq<EM.Deed>)
    ensures var r := EM.Dispatch(EM.MapAfter(h), event, script);
      r.handlers == EM.MapAfter(h + Nulls(r.posted))
  {
    var r0 := EM.Loop(EM.MapAfter(h), [], []);
    assert h + Nulls([]) == h;
    WalkHistory(h, r0, event, 0, script);
    WalkHistory(h, EM.Walk(r0, event, 0, script), EM.ANY, 0, script);
  }

  /** The handlers of `due` that are called, `n` callbacks having been called before:
      each but those whose caller one of the callbacks before it deregistered. */
  ghost function Served(due: seq<EM.Entry>, script: nat -> seq<EM.Deed>, n: nat): seq<EM.Entry> {
    if due == [] then []
    else if EM.Dropped(script, n, due[0].caller) then Served(due[1..], script, n)
    else [due[0]] + Served(due[1..], script, n + 1)
  }

  lemma {:induction false} ServedJoin(a: seq<EM.Entry>, b: seq<EM.Entry>, script: nat -> seq<EM.Deed>, n: nat)
    ensures Served(a + b, script, n) == Served(a, script, n) + Served(b, script, n + |Served(a, script, n)|)
  {
    if a == [] {
      assert a + b == b;
    } else {
      assert (a + b)[1..] == a[1..] + b;
      if EM.Dropped(script, n, a[0].caller) {
        ServedJoin(a[1..], b, script, n);
      } else {
        ServedJoin(a[1..], b, script, n + 1);
      }
    }
  }

  lemma {:induction false} WalkServes(m: EM.Handlers, r: EM.Loop, event: string, i: nat, script: nat -> seq<EM.Deed>)
    requires EM.Tracks(m, r, script) && i <= |EM.ListOf(m, event)|
    ensures i <= |EM.ListOf(r.handlers, event)|
    ensures var r' := EM.Walk(r, event, i, script);
      && EM.Tracks(m, r', script)
      && r'.calls == r.calls + Served(EM.Callable(EM.ListOf(m, event)[i..]), script, |r.calls|)
    decreases |EM.ListOf(m, event)| - i
  {
    var el := EM.ListOf(m, event);
    if i < |el| {
      EM.WalkTurn(m, r, event, i, script);
      assert el[i..][0] == el[i] && el[i..][1..] == el[i + 1..];
      if el[i].active && !EM.Dropped(script, |r.calls|, el[i].caller) {
        WalkServes(m, EM.AfterCall(r, el[i], script), event, i + 1, script);
        assert EM.Callable(el[i..]) == [el[i]] + EM.Callable(el[i + 1..]);
      } else {
        WalkServes(m, r, event, i + 1, script);
      }
    }
  }

  /** The handlers a signal may call, as the map's history has them: registered for the
      event, or else for any event, and neither removed nor invalidated since. */
  ghost function Eligible(h: seq<EM.Change>, event: string): seq<EM.Entry> {
    EM.Standing(h, event, 0) + EM.Standing(h, "*", 0)
  }

  lemma FreshTracks(m: EM.Handlers, script: nat -> seq<EM.Deed>)
    ensures EM.Tracks(m, EM.Loop(m, [], []), script)
  {
  }

  lemma ListServes(m: EM.Handlers, r: EM.Loop, event: string, script: nat -> seq<EM.Deed>)
    requires EM.Tracks(m, r, script)
    ensures var r' := EM.Walk(r, event, 0, script);
      EM.Tracks(m, r', script) && r'.calls == r.calls + Served(EM.Callable(EM.ListOf(m, event)), script, |r.calls|)
  {
    WalkServes(m, r, event, 0, script);
    assert EM.ListOf(m, event)[0..] == EM.ListOf(m, event);
  }

  lemma DispatchOf(m: EM.Handlers, event: string, script: nat -> seq<EM.Deed>)
    ensures EM.Dispatch(m, event, script).calls ==
      Served(EM.Callable(EM.ListOf(m, event)) + EM.Callable(EM.ListOf(m, EM.ANY)), script, 0)
  {
    var r0 := EM.Loop(m, [], []);
    var own, any := EM.Callable(EM.ListOf(m, event)), EM.Callable(EM.ListOf(m, EM.ANY));
    FreshTracks(m, script);
    ListServes(m, r0, event, script);
    var r1 := EM.Walk(r0, event, 0, script);
    assert r1.calls == [] + Served(own, script, 0) == Served(own, script, 0);
    ListServes(m, r1, EM.ANY, script);
    ServedJoin(own, any, script, 0);
  }

  /** They are called in that order, but for those whose caller is deregistered by a
      callback before their turn. */
  lemma DispatchServes(h: seq<EM.Change>, event: string, script: nat -> seq<EM.Deed>)
    ensures EM.Dispatch(EM.MapAfter(h), event, script).calls == Served(Eligible(h, event), script, 0)
  {
    DispatchOf(EM.MapAfter(h), event, script);
    EM.MapRefinesHistory(h, event);
    EM.MapRefinesHistory(h, EM.ANY);
  }

  // ------------------------------------------------------------ the whole system

  /** What was called for a signal, and how long the map's history was then. */
  datatype Record = Record(event: string, script: nat -> seq<EM.Deed>, calls: seq<EM.Entry>, before: nat)

  datatype World = World(q: EQ.State, handlers: EM.Handlers, history: seq<EM.Change>, log: seq<Record>)

  /** `posts` is everything that is posted while the callbacks of a signal run. */
  datatype Step =
    | Queue(a: EQ.Action)
    | Take
    | Callbacks(script: nat -> seq<EM.Deed>, posts: seq<EQ.Action>)

  ghost function Init(cap: nat): World {
    World(EQ.Init(cap), map[], [], [])
  }

  predicate IsPost(a: EQ.Action) {
    a.PostAdd? || a.PostRemove? || a.RaiseNow? || a.RaiseLater? || a.TimerFires?
  }

  /** How a callback's call appears at the queue. */
  function DeedAction(d: EM.Deed): EQ.Action {
    match d
    case Register(event, entry) => EQ.PostAdd(event, entry)
    case Deregister(caller) => EQ.PostRemove(caller)
    case Raise(phased, event) => EQ.RaiseNow(phased, event)
  }

  function DeedActions(deeds: seq<EM.Deed>): seq<EQ.Action> {
    if deeds == [] then [] else [DeedAction(deeds[0])] + DeedActions(deeds[1..])
  }

  /** `xs` with anything in between. */
  ghost predicate Within<T>(xs: seq<T>, ys: seq<T>) {
    xs == [] ||
    (ys != [] && ((xs[0] == ys[0] && Within(xs[1..], ys[1..])) || Within(xs, ys[1..])))
  }

  ghost predicate AtCallbacks(q: EQ.State) {
    q.current.Current? && EQ.IsSignal(q.current.msg) && q.current.next == EQ.Callbacks
  }

  ghost predicate Can(w: World, x: Step) {
    match x
    case Queue(a) => EQ.Enabled(w.q, a) && !a.TakeNext? && !(a.Advance? && AtCallbacks(w.q))
    case Take => EQ.Enabled(w.q, EQ.TakeNext)
    case Callbacks(script, posts) =>
      && AtCallbacks(w.q)
      && EL.IsRun(w.q, posts) && (forall a | a in posts :: IsPost(a)) && EQ.Enabled(EL.Run(w.q, posts), EQ.Advance)
      && Within(DeedActions(EM.Dispatch(w.handlers, w.q.current.msg.event, script).posted), posts)
  }

  /** What a message from the queue does to the map. */
  function ChangeOf(m: EQ.Msg): seq<EM.Change> {
    match m
    case Add(event, entry) => [EM.Add(event, entry)]
    case Remove(caller) => [EM.Remove(caller)]
    case _ => []
  }

  function Changed(m: EM.Handlers, more: seq<EM.Change>): EM.Handlers
    decreases |more|
  {
    if more == [] then m else Changed(EM.Apply(m, more[0]), more[1..])
  }

  lemma ChangedOnce(m: EM.Handlers, msg: EQ.Msg)
    ensures msg.Add? ==> Changed(m, ChangeOf(msg)) == EM.Added(m, msg.event, msg.entry)
    ensures msg.Remove? ==> Changed(m, ChangeOf(msg)) == EM.Removed(m, msg.caller)
  {
    if ChangeOf(msg) != [] { assert ChangeOf(msg)[1..] == []; }
  }

  ghost function Next(w: World, x: Step): World
    requires Can(w, x)
  {
    match x
    case Queue(a) => w.(q := EQ.Next(w.q, a))
    case Take =>
      var more := ChangeOf(w.q.queue[0]);
      w.(q := EQ.Next(w.q, EQ.TakeNext), handlers := Changed(w.handlers, more), history := w.history + more)
    case Callbacks(script, posts) =>
      var event := w.q.current.msg.event;
      var r := EM.Dispatch(w.handlers, event, script);
      World(EQ.Next(EL.Run(w.q, posts), EQ.Advance), r.handlers, w.history + Nulls(r.posted),
            w.log + [Record(event, script, r.calls, |w.history|)])
  }

  ghost predicate IsRun(w: World, xs: seq<Step>)
    decreases |xs|
  {
    xs == [] || (Can(w, xs[0]) && IsRun(Next(w, xs[0]), xs[1..]))
  }

  ghost function Run(w: World, xs: seq<Step>): World
    requires IsRun(w, xs)
    decreases |xs|
  {
    if xs == [] then w else Run(Next(w, xs[0]), xs[1..])
  }

  /** Can some run lead from `w` to `t`? */
  ghost predicate Leads(w: World, t: World) {
    exists xs :: IsRun(w, xs) && Run(w, xs) == t
  }

  lemma LeadsNowhere(w: World)
    ensures Leads(w, w)
  {
    assert IsRun(w, []) && Run(w, []) == w;
  }

  lemma {:induction false} LeadsAlong(w: World, xs: seq<Step>, x: Step)
    requires IsRun(w, xs) && Can(Run(w, xs), x)
    ensures IsRun(w, xs + [x]) && Run(w, xs + [x]) == Next(Run(w, xs), x)
    decreases |xs|
  {
    if xs == [] {
      assert [x][1..] == [] && xs + [x] == [x];
      assert IsRun(Next(w, x), []);
    } else {
      LeadsAlong(Next(w, xs[0]), xs[1..], x);
      assert (xs + [x])[1..] == xs[1..] + [x];
    }
  }

  lemma LeadsOn(w: World, t: World, x: Step)
    requires Leads(w, t) && Can(t, x)
    ensures Leads(w, Next(t, x))
  {
    var xs :| IsRun(w, xs) && Run(w, xs) == t;
    LeadsAlong(w, xs, x);
  }

  lemma {:induction false} LeadsThrough(w: World, t: World, xs: seq<Step>)
    requires Leads(w, t) && IsRun(t, xs)
    ensures Leads(w, Run(t, xs))
    decreases |xs|
  {
    if xs != [] {
      LeadsOn(w, t, xs[0]);
      LeadsThrough(w, Next(t, xs[0]), xs[1..]);
    }
  }

  lemma LeadsTrans(w: World, t: World, u: World)
    requires Leads(w, t) && Leads(t, u)
    ensures Leads(w, u)
  {
    var xs :| IsRun(t, xs) && Run(t, xs) == u;
    LeadsThrough(w, t, xs);
  }

  // -------------------------------------------------------------- what it keeps

  /** The signal called what was eligible when it was handled. */
  ghost predicate Explained(h: seq<EM.Change>, e: Record) {
    e.before <= |h| && e.calls == Served(Eligible(h[..e.before], e.event), e.script, 0)
  }

  /** The removal that goes with an invalidation has been made since or is queued. */
  ghost predicate RemovalComes(w: World, j: nat)
    requires j < |w.history| && w.history[j].Null?
  {
    || (exists i :: j < i < |w.history| && w.history[i] == EM.Remove(w.history[j].caller))
    || EQ.Remove(w.history[j].caller) in w.q.queue
  }

  /** Unless it was lost to a full queue for its caller's name. */
  ghost predicate Cleaning(w: World) {
    forall j: nat | j < |w.history| && w.history[j].Null? :: RemovalComes(w, j) || EQ.IsTicker(w.history[j].caller)
  }

  ghost predicate Inv(w: World) {
    && w.handlers == EM.MapAfter(w.history)
    && (forall k | 0 <= k < |w.log| :: Explained(w.history, w.log[k]))
    && Cleaning(w)
  }

  lemma ExplainedMore(h: seq<EM.Change>, more: seq<EM.Change>, log: seq<Record>)
    requires forall k | 0 <= k < |log| :: Explained(h, log[k])
    ensures forall k | 0 <= k < |log| :: Explained(h + more, log[k])
  {
    forall k | 0 <= k < |log| ensures Explained(h + more, log[k]) {
      assert Explained(h, log[k]) && (h + more)[..log[k].before] == h[..log[k].before];
    }
  }

  /** Removals stay on their way while the queue grows and the history goes on. */
  lemma CleaningLasts(w: World, t: World, more: seq<EM.Change>)
    requires Cleaning(w) && t.history == w.history + more
    requires forall caller | EQ.Remove(caller) in w.q.queue :: EQ.Remove(caller) in t.q.queue || EM.Remove(caller) in more
    ensures forall j: nat | j < |w.history| && w.history[j].Null? ::
      t.history[j] == w.history[j] && (RemovalComes(t, j) || EQ.IsTicker(t.history[j].caller))
  {
    forall j: nat | j < |w.history| && w.history[j].Null?
      ensures t.history[j] == w.history[j] && (RemovalComes(t, j) || EQ.IsTicker(t.history[j].caller))
    {
      var caller := w.history[j].caller;
      if !EQ.IsTicker(caller) {
        assert RemovalComes(w, j);
        if i :| j < i < |w.history| && w.history[i] == EM.Remove(caller) {
          assert t.history[i] == EM.Remove(caller);
        } else if EM.Remove(caller) in more {
          var i :| 0 <= i < |more| && more[i] == EM.Remove(caller);
          assert t.history[|w.history| + i] == EM.Remove(caller);
        }
      }
    }
  }

  lemma QueueStepKeeps(w: World, a: EQ.Action)
    requires Inv(w) && Can(w, Queue(a))
    ensures Inv(Next(w, Queue(a)))
  {
    EF.StepSends(w.q, a);
    var t := Next(w, Queue(a));
    assert t.history == w.history + [];
    forall caller | EQ.Remove(caller) in w.q.queue ensures EQ.Remove(caller) in t.q.queue {
      KeptInQueue(w.q, a, EQ.Remove(caller));
    }
    CleaningLasts(w, t, []);
  }

  lemma KeptInQueue(q: EQ.State, a: EQ.Action, m: EQ.Msg)
    requires EQ.Enabled(q, a) && !a.TakeNext? && m in q.queue
    ensures m in EQ.Next(q, a).queue
  {
    EF.StepSends(q, a);
    assert EF.TakenNow(q, a) == [] && EQ.Next(q, a).queue == q.queue + EF.SentNow(q, a, true);
  }

  lemma {:induction false} ChangedHistory(m: EM.Handlers, h: seq<EM.Change>, more: seq<EM.Change>)
    requires m == EM.MapAfter(h)
    ensures Changed(m, more) == EM.MapAfter(h + more)
    decreases |more|
  {
    if more == [] {
      assert h + more == h;
    } else {
      var (x, rest) := (more[0], more[1..]);
      MapAfterMore(h, x);
      ChangedHistory(EM.Apply(m, x), h + [x], rest);
      assert h + more == (h + [x]) + rest;
    }
  }

  lemma TakeCleans(w: World)
    requires Cleaning(w) && Can(w, Take)
    ensures Cleaning(Next(w, Take))
  {
    var m := w.q.queue[0];
    var more := ChangeOf(m);
    var t := Next(w, Take);
    assert w.q.queue == [m] + t.q.queue;
    forall caller | EQ.Remove(caller) in w.q.queue ensures EQ.Remove(caller) in t.q.queue || EM.Remove(caller) in more {
      if EQ.Remove(caller) == m { assert EM.Remove(caller) == more[0]; }
    }
    CleaningLasts(w, t, more);
    assert forall k | 0 <= k < |more| :: !more[k].Null?;
  }

  lemma TakeKeeps(w: World)
    requires Inv(w) && Can(w, Take)
    ensures Inv(Next(w, Take))
  {
    var more := ChangeOf(w.q.queue[0]);
    ChangedHistory(w.handlers, w.history, more);
    ExplainedMore(w.history, more, w.log);
    TakeCleans(w);
  }

  lemma {:induction false} WithinIn(xs: seq<EQ.Action>, ys: seq<EQ.Action>, x: EQ.Action)
    requires Within(xs, ys) && x in xs
    ensures x in ys
  {
    if xs[0] == ys[0] && Within(xs[1..], ys[1..]) {
      if x != xs[0] { WithinIn(xs[1..], ys[1..], x); }
    } else {
      WithinIn(xs, ys[1..], x);
    }
  }

  lemma {:induction false} DeedIn(deeds: seq<EM.Deed>, d: EM.Deed)
    requires d in deeds
    ensures DeedAction(d) in DeedActions(deeds)
  {
    if d != deeds[0] { DeedIn(deeds[1..], d); }
  }

  /** Posts only add to the queue; a removal that is posted gets into it, or the
      system aborts, or the caller's name makes it pass for a ticker. */
  lemma {:induction false} PostsQueue(q: EQ.State, posts: seq<EQ.Action>, caller: string)
    requires EL.IsRun(q, posts) && (forall a | a in posts :: IsPost(a)) && !EL.Run(q, posts).aborted
    ensures EQ.Remove(caller) in q.queue ==> EQ.Remove(caller) in EL.Run(q, posts).queue
    ensures EQ.PostRemove(caller) in posts && !EQ.IsTicker(caller) ==> EQ.Remove(caller) in EL.Run(q, posts).queue
    decreases |posts|
  {
    if posts != [] {
      var a, u := posts[0], EQ.Next(q, posts[0]);
      assert a in posts;
      EF.StepSends(q, a);
      if u.aborted { EF.AbortEnds(u, posts[1..]); }
      PostsQueue(u, posts[1..], caller);
      if EQ.Remove(caller) in q.queue { KeptInQueue(q, a, EQ.Remove(caller)); }
      if a == EQ.PostRemove(caller) && !EQ.IsTicker(caller) { PostedInQueue(q, caller); }
    }
  }

  lemma PostedInQueue(q: EQ.State, caller: string)
    requires EQ.Enabled(q, EQ.PostRemove(caller)) && !EQ.IsTicker(caller) && !EQ.Next(q, EQ.PostRemove(caller)).aborted
    ensures EQ.Remove(caller) in EQ.Next(q, EQ.PostRemove(caller)).queue
  {
  }

  /** What callbacks invalidate they also ask to have removed. */
  lemma NullsArePosted(w: World, x: Step, k: nat)
    requires Can(w, x) && x.Callbacks?
    requires var r := EM.Dispatch(w.handlers, w.q.current.msg.event, x.script);
      k < |Nulls(r.posted)|
    ensures var c := Nulls(EM.Dispatch(w.handlers, w.q.current.msg.event, x.script).posted)[k];
      c.Null? && (EQ.IsTicker(c.caller) || EQ.Remove(c.caller) in Next(w, x).q.queue)
  {
    var deeds := EM.Dispatch(w.handlers, w.q.current.msg.event, x.script).posted;
    NullsAre(deeds, k);
    var caller := Nulls(deeds)[k].caller;
    DeedIn(deeds, EM.Deregister(caller));
    WithinIn(DeedActions(deeds), x.posts, EQ.PostRemove(caller));
    PostsQueue(w.q, x.posts, caller);
  }

  /** Handlers that callbacks register are queued to be added, or the system aborts, or
      the event's name makes the message pass for a ticker. */
  lemma {:induction false} AddsQueue(q: EQ.State, posts: seq<EQ.Action>, event: string, entry: EM.Entry)
    requires EL.IsRun(q, posts) && (forall a | a in posts :: IsPost(a)) && !EL.Run(q, posts).aborted
    ensures EQ.Add(event, entry) in q.queue ==> EQ.Add(event, entry) in EL.Run(q, posts).queue
    ensures EQ.PostAdd(event, entry) in posts && !EQ.IsTicker(event) ==> EQ.Add(event, entry) in EL.Run(q, posts).queue
    decreases |posts|
  {
    if posts != [] {
      var a, u := posts[0], EQ.Next(q, posts[0]);
      assert a in posts;
      EF.StepSends(q, a);
      if u.aborted { EF.AbortEnds(u, posts[1..]); }
      AddsQueue(u, posts[1..], event, entry);
      if EQ.Add(event, entry) in q.queue { KeptInQueue(q, a, EQ.Add(event, entry)); }
      if a == EQ.PostAdd(event, entry) && !EQ.IsTicker(event) { AddedInQueue(q, event, entry); }
    }
  }

  lemma AddedInQueue(q: EQ.State, event: string, entry: EM.Entry)
    requires EQ.Enabled(q, EQ.PostAdd(event, entry)) && !EQ.IsTicker(event)
    requires !EQ.Next(q, EQ.PostAdd(event, entry)).aborted
    ensures EQ.Add(event, entry) in EQ.Next(q, EQ.PostAdd(event, entry)).queue
  {
  }

  lemma RegistrationsAreQueued(w: World, x: Step, event: string, entry: EM.Entry)
    requires Can(w, x) && x.Callbacks? && !EQ.IsTicker(event)
    requires EM.Register(event, entry) in EM.Dispatch(w.handlers, w.q.current.msg.event, x.script).posted
    ensures EQ.Add(event, entry) in Next(w, x).q.queue
  {
    var deeds := EM.Dispatch(w.handlers, w.q.current.msg.event, x.script).posted;
    DeedIn(deeds, EM.Register(event, entry));
    WithinIn(DeedActions(deeds), x.posts, EQ.PostAdd(event, entry));
    AddsQueue(w.q, x.posts, event, entry);
  }

  lemma {:induction false} WithinBehind<T>(a: seq<T>, xs: seq<T>, ys: seq<T>)
    requires Within(xs, ys)
    ensures Within(xs, a + ys) && Within(a + xs, a + ys)
  {
    if a == [] {
      assert a + xs == xs && a + ys == ys;
    } else {
      WithinBehind(a[1..], xs, ys);
      assert (a + xs)[1..] == a[1..] + xs && (a + ys)[1..] == a[1..] + ys;
    }
  }

  lemma {:induction false} RaisesAmong(xs: seq<EQ.Action>, ys: seq<EQ.Action>)
    requires Within(xs, ys)
    ensures Within(EF.Raisings(xs), EF.Raisings(ys))
    decreases |ys|
  {
    if xs != [] {
      if xs[0] == ys[0] && Within(xs[1..], ys[1..]) {
        RaisesAmong(xs[1..], ys[1..]);
        WithinBehind(EF.RaisingOf(xs[0]), EF.Raisings(xs[1..]), EF.Raisings(ys[1..]));
      } else {
        RaisesAmong(xs, ys[1..]);
        WithinBehind(EF.RaisingOf(ys[0]), EF.Raisings(xs), EF.Raisings(ys[1..]));
      }
    }
  }

  /** The signals that callbacks raise: whether with phases, and their names. */
  function RaiseDeeds(deeds: seq<EM.Deed>): seq<(bool, string)> {
    if deeds == [] then []
    else (match deeds[0] case Raise(phased, event) => [(phased, event)] case _ => []) + RaiseDeeds(deeds[1..])
  }

  lemma {:induction false} RaisesOf(deeds: seq<EM.Deed>)
    ensures EF.Raisings(DeedActions(deeds)) == RaiseDeeds(deeds)
  {
    if deeds != [] {
      RaisesOf(deeds[1..]);
      assert DeedActions(deeds)[1..] == DeedActions(deeds[1..]);
    }
  }

  /** The signals made while callbacks run: those they raise, as they ask for them and in
      that order, with others raised meanwhile. */
  lemma RaisesAreMade(w: World, x: Step)
    requires Can(w, x) && x.Callbacks?
    ensures Within(RaiseDeeds(EM.Dispatch(w.handlers, w.q.current.msg.event, x.script).posted), EF.Raisings(x.posts))
  {
    var deeds := EM.Dispatch(w.handlers, w.q.current.msg.event, x.script).posted;
    RaisesOf(deeds);
    RaisesAmong(DeedActions(deeds), x.posts);
  }

  lemma CallbacksClean(w: World, x: Step)
    requires Inv(w) && Can(w, x) && x.Callbacks?
    ensures Cleaning(Next(w, x))
  {
    var t := Next(w, x);
    var more := Nulls(EM.Dispatch(w.handlers, w.q.current.msg.event, x.script).posted);
    forall caller | EQ.Remove(caller) in w.q.queue ensures EQ.Remove(caller) in t.q.queue {
      PostsQueue(w.q, x.posts, caller);
    }
    CleaningLasts(w, t, more);
    forall j: nat | j < |t.history| && t.history[j].Null? ensures RemovalComes(t, j) || EQ.IsTicker(t.history[j].caller) {
      if j >= |w.history| {
        assert t.history[j] == more[j - |w.history|];
        NullsArePosted(w, x, j - |w.history|);
      }
    }
  }

  lemma CallbacksKeep(w: World, x: Step)
    requires Inv(w) && Can(w, x) && x.Callbacks?
    ensures Inv(Next(w, x))
  {
    var event := w.q.current.msg.event;
    var r := EM.Dispatch(w.handlers, event, x.script);
    DispatchHistory(w.history, event, x.script);
    DispatchServes(w.history, event, x.script);
    ExplainedMore(w.history, Nulls(r.posted), w.log);
    assert (w.history + Nulls(r.posted))[..|w.history|] == w.history;
    CallbacksClean(w, x);
  }

  lemma StepKeepsInv(w: World, x: Step)
    requires Inv(w) && Can(w, x)
    ensures Inv(Next(w, x))
  {
    match x
    case Queue(a) => QueueStepKeeps(w, a);
    case Take => TakeKeeps(w);
    case Callbacks(_, _) => CallbacksKeep(w, x);
  }

  lemma {:induction false} RunKeepsInv(w: World, xs: seq<Step>)
    requires Inv(w) && IsRun(w, xs)
    ensures Inv(Run(w, xs))
    decreases |xs|
  {
    if xs != [] {
      StepKeepsInv(w, xs[0]);
      RunKeepsInv(Next(w, xs[0]), xs[1..]);
    }
  }

  // ----------------------------------------------------- history and queue

  /** A step as the queue sees it. */
  function QueueActs(x: Step): seq<EQ.Action> {
    match x
    case Queue(a) => [a]
    case Take => [EQ.TakeNext]
    case Callbacks(_, posts) => posts + [EQ.Advance]
  }

  function AllActs(xs: seq<Step>): seq<EQ.Action> {
    if xs == [] then [] else QueueActs(xs[0]) + AllActs(xs[1..])
  }

  /** The changes of a history that came through the queue. */
  function Queued(h: seq<EM.Change>): seq<EM.Change> {
    if h == [] then [] else (if h[0].Null? then [] else [h[0]]) + Queued(h[1..])
  }

  function ChangesOf(ms: seq<EQ.Msg>): seq<EM.Change> {
    if ms == [] then [] else ChangeOf(ms[0]) + ChangesOf(ms[1..])
  }

  lemma {:induction false} QueuedJoin(a: seq<EM.Change>, b: seq<EM.Change>)
    ensures Queued(a + b) == Queued(a) + Queued(b)
  {
    if a == [] {
      assert a + b == b;
    } else {
      QueuedJoin(a[1..], b);
      assert (a + b)[1..] == a[1..] + b && (a + b)[0] == a[0];
      var now := if a[0].Null? then [] else [a[0]];
      assert Queued(a + b) == now + (Queued(a[1..]) + Queued(b));
    }
  }

  lemma {:induction false} ChangesJoin(a: seq<EQ.Msg>, b: seq<EQ.Msg>)
    ensures ChangesOf(a + b) == ChangesOf(a) + ChangesOf(b)
  {
    if a == [] {
      assert a + b == b;
    } else {
      ChangesJoin(a[1..], b);
      assert (a + b)[1..] == a[1..] + b;
    }
  }

  lemma {:induction false} NullsAreNotQueued(deeds: seq<EM.Deed>)
    ensures Queued(Nulls(deeds)) == []
  {
    if deeds != [] {
      NullsAreNotQueued(deeds[1..]);
      QueuedJoin(if deeds[0].Deregister? then [EM.Null(deeds[0].caller)] else [], Nulls(deeds[1..]));
    }
  }

  lemma {:induction false} RunJoin(q: EQ.State, a: seq<EQ.Action>, b: seq<EQ.Action>)
    requires EL.IsRun(q, a) && EL.IsRun(EL.Run(q, a), b)
    ensures EL.IsRun(q, a + b) && EL.Run(q, a + b) == EL.Run(EL.Run(q, a), b)
    decreases |a|
  {
    if a == [] {
      assert a + b == b;
    } else {
      var u, rest := EQ.Next(q, a[0]), a[1..];
      assert (a + b)[0] == a[0] && (a + b)[1..] == rest + b;
      assert EL.Run(q, a) == EL.Run(u, rest);
      RunJoin(u, rest, b);
    }
  }

  lemma {:induction false} TakenJoin(q: EQ.State, a: seq<EQ.Action>, b: seq<EQ.Action>)
    requires EL.IsRun(q, a) && EL.IsRun(EL.Run(q, a), b) && EL.IsRun(q, a + b)
    ensures EF.Taken(q, a + b) == EF.Taken(q, a) + EF.Taken(EL.Run(q, a), b)
    decreases |a|
  {
    if a == [] {
      assert a + b == b;
    } else {
      assert (a + b)[0] == a[0] && (a + b)[1..] == a[1..] + b;
      TakenJoin(EQ.Next(q, a[0]), a[1..], b);
    }
  }

  lemma {:induction false} PostsTakeNothing(q: EQ.State, posts: seq<EQ.Action>)
    requires EL.IsRun(q, posts) && (forall a | a in posts :: !a.TakeNext?)
    ensures EF.Taken(q, posts) == []
    decreases |posts|
  {
    if posts != [] {
      assert posts[0] in posts;
      PostsTakeNothing(EQ.Next(q, posts[0]), posts[1..]);
    }
  }

  lemma OneAct(q: EQ.State, a: EQ.Action)
    requires EQ.Enabled(q, a)
    ensures EL.IsRun(q, [a]) && EL.Run(q, [a]) == EQ.Next(q, a) && EF.Taken(q, [a]) == EF.TakenNow(q, a)
  {
    assert [a][1..] == [];
    assert EL.IsRun(EQ.Next(q, a), []) && EF.Taken(EQ.Next(q, a), []) == [];
  }

  lemma StepIsQueued(w: World, x: Step)
    requires Can(w, x)
    ensures EL.IsRun(w.q, QueueActs(x)) && EL.Run(w.q, QueueActs(x)) == Next(w, x).q
    ensures Queued(Next(w, x).history) == Queued(w.history) + ChangesOf(EF.Taken(w.q, QueueActs(x)))
  {
    match x
    case Queue(a) => OneAct(w.q, a);
    case Take =>
      OneAct(w.q, EQ.TakeNext);
      var m := w.q.queue[0];
      QueuedJoin(w.history, ChangeOf(m));
      assert [m][1..] == [] && ChangesOf([m]) == ChangeOf(m) + ChangesOf([]);
      if ChangeOf(m) != [] { assert ChangeOf(m)[1..] == [] && Queued(ChangeOf(m)) == ChangeOf(m) + Queued([]); }
    case Callbacks(script, posts) =>
      OneAct(EL.Run(w.q, posts), EQ.Advance);
      RunJoin(w.q, posts, [EQ.Advance]);
      TakenJoin(w.q, posts, [EQ.Advance]);
      PostsTakeNothing(w.q, posts);
      var deeds := EM.Dispatch(w.handlers, w.q.current.msg.event, script).posted;
      QueuedJoin(w.history, Nulls(deeds));
      NullsAreNotQueued(deeds);
  }

  /** A run of the system is a run of the queue, and the changes made to the map are
      those whose messages were taken from it. */
  lemma {:induction false} RunIsQueued(w: World, xs: seq<Step>)
    requires IsRun(w, xs)
    ensures EL.IsRun(w.q, AllActs(xs)) && EL.Run(w.q, AllActs(xs)) == Run(w, xs).q
    ensures Queued(Run(w, xs).history) == Queued(w.history) + ChangesOf(EF.Taken(w.q, AllActs(xs)))
    decreases |xs|
  {
    if xs != [] {
      var u := Next(w, xs[0]);
      StepIsQueued(w, xs[0]);
      RunIsQueued(u, xs[1..]);
      RunJoin(w.q, QueueActs(xs[0]), AllActs(xs[1..]));
      TakenJoin(w.q, QueueActs(xs[0]), AllActs(xs[1..]));
      var now, later := EF.Taken(w.q, QueueActs(xs[0])), EF.Taken(u.q, AllActs(xs[1..]));
      ChangesJoin(now, later);
      InTurn(Queued(w.history), ChangesOf(now), ChangesOf(later));
      assert AllActs(xs) == QueueActs(xs[0]) + AllActs(xs[1..]);
      assert Run(w, xs) == Run(u, xs[1..]);
    }
  }

  lemma InTurn(a: seq<EM.Change>, b: seq<EM.Change>, c: seq<EM.Change>)
    ensures (a + b) + c == a + (b + c)
  {
  }

  /** Over any run of the whole system: what each signal called are the handlers then
      eligible by the map's history, less those deregistered by a callback before
      them; the history is that of the messages taken from the queue, in the order
      they were sent, and of the callbacks' invalidations; and each invalidation is
      followed by the removal, but for callers whose names pass for tickers. */
  lemma EveryCallIsEligible(cap: nat, xs: seq<Step>)
    requires IsRun(Init(cap), xs)
    ensures var w := Run(Init(cap), xs); var acts := AllActs(xs);
      && Inv(w)
      && EL.IsRun(EQ.Init(cap), acts) && EL.Run(EQ.Init(cap), acts) == w.q
      && Queued(w.history) == ChangesOf(EF.Taken(EQ.Init(cap), acts))
      && EF.Sent(EQ.Init(cap), acts, true) == EF.Taken(EQ.Init(cap), acts) + w.q.queue
  {
    RunKeepsInv(Init(cap), xs);
    RunIsQueued(Init(cap), xs);
    EF.FirstInFirstOut(EQ.Init(cap), AllActs(xs));
  }
}
