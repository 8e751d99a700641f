/**
 The event framework as the class `OvmsEvents` implements it: nested loops over
 the handler map, a search for an idle timer, and the callback loop during which
 callbacks call back into the framework.  Each method is proved equal to the
 corresponding function of `EventMap` or `EventQueue`.
 */
module OvmsEvents {
  import opened Common
  import EM = EventMap
  import EQ = EventQueue
  import EL = EventLifecycle
  import ER = EventRuns

  /** The message a callback's deed posts. */
  ghost function PostOne(s: EQ.State, d: EM.Deed): EQ.State {
    match d
    case Register(event, entry) => EQ.Send(s, EQ.Add(event, entry))
    case Deregister(caller) => EQ.Send(s, EQ.Remove(caller))
    case Raise(phased, event) => EQ.Send(EQ.Raise(s, phased, event), EQ.New(s, phased, event))
  }

  /** What the queue becomes when the deeds of callbacks are posted in turn. */
  ghost function Posted(s: EQ.State, deeds: seq<EM.Deed>): EQ.State {
    if deeds == [] then s else PostOne(Posted(s, deeds[..|deeds| - 1]), deeds[|deeds| - 1])
  }

  lemma PostedMore(s: EQ.State, deeds: seq<EM.Deed>, d: EM.Deed)
    ensures Posted(s, deeds + [d]) == PostOne(Posted(s, deeds), d)
  {
    assert (deeds + [d])[..|deeds|] == deeds;
  }

  lemma {:induction false} DeedActionsMore(deeds: seq<EM.Deed>, d: EM.Deed)
    ensures ER.DeedActions(deeds + [d]) == ER.DeedActions(deeds) + [ER.DeedAction(d)]
  {
    if deeds == [] {
      assert deeds + [d] == [d];
    } else {
      DeedActionsMore(deeds[1..], d);
      assert (deeds + [d])[1..] == deeds[1..] + [d];
    }
  }

  /** Posting is a run of the queue machine, unless the system aborts. */
  lemma {:induction false} PostedIsRun(s: EQ.State, deeds: seq<EM.Deed>)
    requires !Posted(s, deeds).aborted
    ensures EL.IsRun(s, ER.DeedActions(deeds)) && EL.Run(s, ER.DeedActions(deeds)) == Posted(s, deeds)
    decreases |deeds|
  {
    if deeds != [] {
      var before, d := deeds[..|deeds| - 1], deeds[|deeds| - 1];
      assert deeds == before + [d];
      PostedIsRun(s, before);
      DeedActionsMore(before, d);
      EL.LeadsAlong(s, ER.DeedActions(before), ER.DeedAction(d));
    }
  }

  lemma {:induction false} PostedKeepsCurrent(s: EQ.State, deeds: seq<EM.Deed>)
    ensures Posted(s, deeds).current == s.current
    ensures s.aborted ==> Posted(s, deeds).aborted
    decreases |deeds|
  {
    if deeds != [] { PostedKeepsCurrent(s, deeds[..|deeds| - 1]); }
  }

  lemma {:induction false} DeedsArePosts(deeds: seq<EM.Deed>)
    ensures forall a | a in ER.DeedActions(deeds) :: ER.IsPost(a)
    ensures ER.Within(ER.DeedActions(deeds), ER.DeedActions(deeds))
  {
    if deeds != [] { DeedsArePosts(deeds[1..]); }
  }

  /** The callbacks of a signal, nobody else posting meanwhile. */
  lemma CallbacksAreStep(w: ER.World, script: nat -> seq<EM.Deed>) returns (x: ER.Step)
    requires ER.AtCallbacks(w.q)
    requires !Posted(w.q, EM.Dispatch(w.handlers, w.q.current.msg.event, script).posted).aborted
    ensures var r := EM.Dispatch(w.handlers, w.q.current.msg.event, script);
      && x == ER.Callbacks(script, ER.DeedActions(r.posted)) && ER.Can(w, x)
      && EQ.Enabled(Posted(w.q, r.posted), EQ.Advance)
      && ER.Next(w, x) ==
           ER.World(EQ.Next(Posted(w.q, r.posted), EQ.Advance), r.handlers, w.history + ER.Nulls(r.posted),
                    w.log + [ER.Record(w.q.current.msg.event, script, r.calls, |w.history|)])
  {
    var r := EM.Dispatch(w.handlers, w.q.current.msg.event, script);
    x := ER.Callbacks(script, ER.DeedActions(r.posted));
    PostedIsRun(w.q, r.posted);
    PostedKeepsCurrent(w.q, r.posted);
    DeedsArePosts(r.posted);
  }

  class OvmsEvents {
    const cap: nat
    var handlers: EM.Handlers
    var queue: seq<EQ.Msg>
    var timers: seq<EQ.Timer>
    var nextId: nat
    var current: EQ.Current
    var aborted: bool
    var trace: seq<EQ.Seen>
    var overflows: seq<string>
    var calls: seq<EM.Entry>
    ghost var high: nat
    ghost var raised: seq<EQ.Msg>
    ghost var posted: seq<EM.Deed>
    ghost var history: seq<EM.Change>
    ghost var log: seq<ER.Record>

    /** The queue and the timers as `EventQueue` sees them. */
    ghost function Q(): EQ.State
      reads this
    {
      EQ.State(cap, queue, timers, high, nextId, raised, current, trace, overflows, aborted)
    }

    /** The whole system as `EventRuns` sees it. */
    ghost function W(): ER.World
      reads this
    {
      ER.World(Q(), handlers, history, log)
    }

    /** The running callback loop as `EventMap` sees it. */
    ghost function Now(): EM.Loop
      reads this
    {
      EM.Loop(handlers, posted, calls)
    }

    constructor (cap: nat)
      ensures this.cap == cap && W() == ER.Init(cap)
    {
      this.cap := cap;
      handlers, queue, timers, nextId := map[], [], [], 0;
      current, aborted, trace, overflows := EQ.NoCurrent, false, [], [];
      calls, high, raised, posted, history, log := [], 0, [], [], [], [];
    }

    // ------------------------------------------------------------ the queue

    method FreeQueueSignalEvent(m: EQ.Msg)
      requires EQ.IsSignal(m)
      modifies this`trace
      ensures Q() == EQ.Complete(old(Q()), m)
    {
      if m.Phased? {
        trace := trace + [EQ.Seen(m.id, EQ.Free)];
      } else {
        trace := trace + [EQ.Seen(m.id, EQ.Done)];
      }
    }

    /** Does not return to its caller when it aborts. */
    method CheckQueueOverflow(checked: string)
      modifies this`aborted, this`overflows
      ensures aborted == (old(aborted) || !EQ.IsTicker(checked))
      ensures overflows == if EQ.IsTicker(checked) then old(overflows) + [checked] else old(overflows)
    {
      if !EQ.IsTicker(checked) {
        aborted := true;
      } else {
        overflows := overflows + [checked];
      }
    }

    /** What every sender does with a message. */
    method XQueueSend(m: EQ.Msg)
      modifies this`queue, this`aborted, this`overflows, this`trace
      ensures Q() == EQ.Send(old(Q()), m)
    {
      if |queue| < cap {
        queue := queue + [m];
        return;
      }
      CheckQueueOverflow(EQ.Checked(m));
      if EQ.IsTicker(EQ.Checked(m)) && EQ.IsSignal(m) {
        FreeQueueSignalEvent(m);
      }
    }

    method RegisterEvent(event: string, entry: EM.Entry)
      modifies this`queue, this`aborted, this`overflows, this`trace
      ensures Q() == EQ.Send(old(Q()), EQ.Add(event, entry))
    {
      XQueueSend(EQ.Add(event, entry));
    }

    method SignalEvent(phased: bool, event: string, delay_ms: nat, creates: bool, starts: bool)
      requires !aborted
      modifies this`queue, this`aborted, this`overflows, this`trace, this`nextId, this`raised, this`timers, this`high
      ensures Q() == EQ.Next(old(Q()), if delay_ms == 0 then EQ.RaiseNow(phased, event)
                                       else EQ.RaiseLater(phased, event, creates, starts))
      ensures nextId == old(nextId) + 1
      ensures raised == old(raised) + [if phased then EQ.Phased(old(nextId), event) else EQ.Signal(old(nextId), event)]
      ensures delay_ms == 0 && |old(queue)| < cap ==>
        queue == old(queue) + [if phased then EQ.Phased(old(nextId), event) else EQ.Signal(old(nextId), event)]
    {
      var m := if phased then EQ.Phased(nextId, event) else EQ.Signal(nextId, event);
      nextId, raised := nextId + 1, raised + [m];
      if delay_ms == 0 {
        XQueueSend(m);
      } else {
        var ok := ScheduleEvent(m, creates, starts);
        if !ok { FreeQueueSignalEvent(m); }
      }
    }

    // ----------------------------------------------------------- the timers

    /** `creates` and `starts` are the outcomes of `xTimerCreate` and
        `xTimerChangePeriod`. */
    method ScheduleEvent(m: EQ.Msg, creates: bool, starts: bool) returns (ok: bool)
      requires EQ.IsSignal(m)
      modifies this`timers, this`high
      ensures EQ.Schedule(old(Q()), m, creates, starts) == if ok then Q() else EQ.Complete(Q(), m)
    {
      var t := 0;
      while t < |timers| && timers[t].active
        invariant t <= |timers|
        invariant EQ.FirstIdle(timers) == t + EQ.FirstIdle(timers[t..])
      {
        assert timers[t..][1..] == timers[t + 1..];
        t := t + 1;
      }
      assert t == EQ.FirstIdle(timers);
      if t == |timers| {
        if !creates { return false; }
        timers := timers + [EQ.Timer(None, false)];
      }
      ghost var pool := timers;
      timers := timers[t := timers[t].(payload := Some(m))];
      if !starts {
        timers := timers[t := timers[t].(payload := None)];
        assert timers == pool[t := pool[t].(payload := None)];
        return false;
      }
      timers := timers[t := timers[t].(active := true)];
      assert timers == pool[t := EQ.Timer(Some(m), true)];
      high := if EQ.Active(timers) > high then EQ.Active(timers) else high;
      return true;
    }

    method SignalScheduledEvent(t: nat)
      requires t < |timers| && !aborted
      modifies this`queue, this`aborted, this`overflows, this`trace, this`timers
      ensures aborted || Q() == EQ.Fire(old(Q()), t)
      ensures aborted <==> EQ.Fire(old(Q()), t).aborted
    {
      var payload := timers[t].payload;
      timers := timers[t := timers[t].(payload := None)];
      if payload.None? {
        assert timers == old(timers);
        return;
      }
      XQueueSend(payload.value);
      if aborted { return; }
      timers := timers[t := timers[t].(active := false)];
    }

    // ------------------------------------------------------- the handler map

    method HandleQueueAddHandler(event: string, entry: EM.Entry)
      modifies this`handlers
      ensures handlers == EM.Added(old(handlers), event, entry)
    {
      if event !in handlers {
        handlers := handlers[event := []];
      }
      handlers := handlers[event := handlers[event] + [entry]];
    }

    /** The inner loop of `DeregisterEvent`. */
    static method NullList(list: seq<EM.Entry>, caller: string) returns (el: seq<EM.Entry>)
      ensures el == EM.NullAll(list, caller)
    {
      el := list;
      var i := 0;
      while i < |el|
        invariant 0 <= i <= |el| == |list|
        invariant el[i..] == list[i..]
        invariant forall k | 0 <= k < i ::
          el[k] == (if list[k].caller == caller then list[k].(active := false) else list[k])
      {
        assert el[i] == el[i..][0] == list[i];
        if el[i].caller == caller {
          el := el[i := el[i].(active := false)];
        }
        i := i + 1;
      }
    }

    /** The inner loop of `HandleQueueRemoveHandlers`: erases while it iterates. */
    static method EraseFrom(list: seq<EM.Entry>, caller: string) returns (el: seq<EM.Entry>)
      ensures el == EM.Others(list, caller)
    {
      el := list;
      var i := 0;
      while i < |el|
        invariant 0 <= i <= |el|
        invariant EM.Others(list, caller) == el[..i] + EM.Others(el[i..], caller)
        decreases |el| - i
      {
        assert el[i..][1..] == el[i + 1..];
        if el[i].caller == caller {
          assert (el[..i] + el[i + 1..])[i..] == el[i + 1..];
          el := el[..i] + el[i + 1..];
        } else {
          assert el[..i] + [el[i]] == el[..i + 1];
          i := i + 1;
        }
      }
      assert el[..i] == el && el[i..] == [];
    }

    /** Run by the event task itself, so callbacks may use it. */
    method InvalidateHandlers(caller: string)
      modifies this`handlers
      ensures handlers == EM.Nulled(old(handlers), caller)
    {
      var keys := handlers.Keys;
      while keys != {}
        invariant keys <= handlers.Keys && handlers.Keys == old(handlers).Keys
        invariant forall e | e in handlers ::
          handlers[e] == (if e in keys then old(handlers)[e] else EM.NullAll(old(handlers)[e], caller))
        decreases |keys|
      {
        var k :| k in keys;
        var el := NullList(handlers[k], caller);
        handlers := handlers[k := el];
        keys := keys - {k};
      }
    }

    method DeregisterEvent(caller: string, eventTask: bool)
      modifies this`handlers, this`queue, this`aborted, this`overflows, this`trace
      ensures handlers == if eventTask then EM.Nulled(old(handlers), caller) else old(handlers)
      ensures Q() == EQ.Send(old(Q()), EQ.Remove(caller))
    {
      if eventTask {
        InvalidateHandlers(caller);
      }
      XQueueSend(EQ.Remove(caller));
    }

    method HandleQueueRemoveHandlers(caller: string)
      modifies this`handlers
      ensures handlers == EM.Removed(old(handlers), caller)
    {
      var keys := handlers.Keys;
      while keys != {}
        invariant keys <= old(handlers).Keys
        invariant forall e :: e in handlers <==>
          e in old(handlers) && (e in keys || EM.Others(old(handlers)[e], caller) != [])
        invariant forall e | e in handlers ::
          handlers[e] == (if e in keys then old(handlers)[e] else EM.Others(old(handlers)[e], caller))
        decreases |keys|
      {
        var k :| k in keys;
        var el := EraseFrom(handlers[k], caller);
        if el == [] {
          handlers := map e | e in handlers && e != k :: handlers[e];
        } else {
          handlers := handlers[k := el];
        }
        keys := keys - {k};
      }
    }

    // ------------------------------------------------------ the callback loop

    /** `SignalEvent` without a delay. */
    method RaiseNow(phased: bool, event: string)
      modifies this`queue, this`aborted, this`overflows, this`trace, this`nextId, this`raised
      ensures Q() == EQ.Send(EQ.Raise(old(Q()), phased, event), EQ.New(old(Q()), phased, event))
    {
      var m := if phased then EQ.Phased(nextId, event) else EQ.Signal(nextId, event);
      nextId, raised := nextId + 1, raised + [m];
      XQueueSend(m);
    }

    /** A callback's calls back into the framework. */
    method DoDeeds(deeds: seq<EM.Deed>)
      modifies this`handlers, this`queue, this`aborted, this`overflows, this`trace, this`nextId, this`raised, this`posted
      ensures Now() == EM.Perform(old(Now()), deeds)
      ensures forall s | old(Q()) == Posted(s, old(posted)) :: Q() == Posted(s, posted)
    {
      var i := 0;
      while i < |deeds|
        invariant 0 <= i <= |deeds|
        invariant EM.Perform(Now(), deeds[i..]) == EM.Perform(old(Now()), deeds)
        invariant forall s | old(Q()) == Posted(s, old(posted)) :: Q() == Posted(s, posted)
      {
        assert deeds[i..][1..] == deeds[i + 1..];
        var d := deeds[i];
        ghost var before := posted;
        match d {
          case Register(event, entry) => RegisterEvent(event, entry);
          case Deregister(caller) => DeregisterEvent(caller, true);
          case Raise(phased, event) => RaiseNow(phased, event);
        }
        posted := posted + [d];
        forall s | old(Q()) == Posted(s, old(posted)) ensures Q() == Posted(s, posted) {
          PostedMore(s, before, d);
        }
        i := i + 1;
      }
    }

    /** One of the two loops of `HandleQueueSignalEvent`. */
    method RunCallbacks(event: string, script: nat -> seq<EM.Deed>)
      modifies this`handlers, this`queue, this`aborted, this`overflows, this`trace, this`nextId, this`raised, this`posted, this`calls
      ensures Now() == EM.Walk(old(Now()), event, 0, script)
      ensures forall s | old(Q()) == Posted(s, old(posted)) :: Q() == Posted(s, posted)
    {
      if event in handlers {
        var i := 0;
        while i < |EM.ListOf(handlers, event)|
          invariant 0 <= i <= |EM.ListOf(handlers, event)|
          invariant EM.Walk(Now(), event, i, script) == EM.Walk(old(Now()), event, 0, script)
          invariant forall s | old(Q()) == Posted(s, old(posted)) :: Q() == Posted(s, posted)
          decreases |EM.ListOf(handlers, event)| - i
        {
          var entry := EM.ListOf(handlers, event)[i];
          if entry.active {
            var deeds := script(|calls|);
            EM.PerformNulls(Now().(calls := calls + [entry]), deeds, event);
            calls := calls + [entry];
            DoDeeds(deeds);
          }
          i := i + 1;
        }
      }
    }

    /** The callbacks of one signal, first the event's own, then those for any. */
    method RunAllCallbacks(event: string, script: nat -> seq<EM.Deed>)
      modifies this`handlers, this`queue, this`aborted, this`overflows, this`trace, this`nextId, this`raised, this`posted, this`calls
      ensures Now() == EM.Dispatch(old(handlers), event, script)
      ensures Q() == Posted(old(Q()), posted)
    {
      calls, posted := [], [];
      assert Q() == Posted(Q(), posted);
      RunCallbacks(event, script);
      RunCallbacks(EM.ANY, script);
    }

    /** The callbacks of the signal in hand, as one step of the system. */
    method RunCallbackLoops(m: EQ.Msg, script: nat -> seq<EM.Deed>)
      requires !aborted && EQ.IsSignal(m) && current == EQ.Current(m, EQ.Callbacks)
      modifies this
      ensures Now() == EM.Dispatch(old(handlers), m.event, script)
      ensures !aborted ==> exists x :: ER.Can(old(W()), x) && W() == ER.Next(old(W()), x)
      ensures !aborted ==> current == EQ.Current(m, if m.Phased? then EQ.Post else EQ.Done)
    {
      ghost var w := W();
      RunAllCallbacks(m.event, script);
      if aborted { return; }
      ghost var x := CallbacksAreStep(w, script);
      PostedKeepsCurrent(w.q, posted);
      trace := trace + [EQ.Seen(m.id, EQ.Callbacks)];
      current := EQ.Current(m, if m.Phased? then EQ.Post else EQ.Done);
      history := history + ER.Nulls(posted);
      log := log + [ER.Record(m.event, script, calls, |w.history|)];
      assert W() == ER.Next(w, x);
    }

    /** The phase callback before or after the callback loops. */
    method CallPhase(m: EQ.Msg, phase: EQ.What)
      requires !aborted && m.Phased? && current == EQ.Current(m, phase) && (phase == EQ.Pre || phase == EQ.Post)
      modifies this`trace, this`current
      ensures ER.Can(old(W()), ER.Queue(EQ.Advance)) && W() == ER.Next(old(W()), ER.Queue(EQ.Advance))
      ensures current == EQ.Current(m, if phase == EQ.Pre then EQ.Callbacks else EQ.Free)
    {
      trace := trace + [EQ.Seen(m.id, phase)];
      current := EQ.Current(m, if phase == EQ.Pre then EQ.Callbacks else EQ.Free);
    }

    /** What is left to do after the callback loops. */
    method FinishSignal(m: EQ.Msg)
      requires !aborted && EQ.IsSignal(m) && current == EQ.Current(m, if m.Phased? then EQ.Post else EQ.Done)
      modifies this`trace, this`current
      ensures ER.Leads(old(W()), W()) && current.NoCurrent?
    {
      ghost var w := W();
      ER.LeadsNowhere(w);
      if m.Phased? {
        CallPhase(m, EQ.Post);
        ER.LeadsOn(w, w, ER.Queue(EQ.Advance));
      }
      ER.LeadsOn(w, W(), ER.Queue(EQ.Advance));
      current := EQ.NoCurrent;
      FreeQueueSignalEvent(m);
    }

    method HandleQueueSignalEvent(m: EQ.Msg, script: nat -> seq<EM.Deed>)
      requires EQ.IsSignal(m) && !aborted
      requires current == EQ.Current(m, if m.Phased? then EQ.Pre else EQ.Callbacks)
      modifies this
      ensures Now() == EM.Dispatch(old(handlers), m.event, script)
      ensures !aborted ==> ER.Leads(old(W()), W()) && current.NoCurrent?
    {
      ghost var w := W();
      ER.LeadsNowhere(w);
      if m.Phased? {
        CallPhase(m, EQ.Pre);
        ER.LeadsOn(w, w, ER.Queue(EQ.Advance));
      }
      ghost var w1 := W();
      RunCallbackLoops(m, script);
      if aborted { return; }
      ghost var x :| ER.Can(w1, x) && W() == ER.Next(w1, x);
      ER.LeadsOn(w, w1, x);
      ghost var w2 := W();
      FinishSignal(m);
      ER.LeadsTrans(w, w2, W());
    }

    /** One turn of the event task's loop: a run of the system that takes a message and
        handles it, or a wait for one in vain. */
    method EventTask(script: nat -> seq<EM.Deed>, flashing: bool)
      requires !aborted && current.NoCurrent?
      modifies this
      ensures !aborted ==> ER.Leads(old(W()), W()) && current.NoCurrent?
      ensures old(queue) == [] ==> W() == ER.Next(old(W()), ER.Queue(EQ.Timeout(flashing)))
      ensures old(queue) != [] ==>
        match old(queue[0])
        case Add(event, entry) => handlers == EM.Added(old(handlers), event, entry)
        case Remove(caller) => handlers == EM.Removed(old(handlers), caller)
        case Signal(_, event) => Now() == EM.Dispatch(old(handlers), event, script)
        case Phased(_, event) => Now() == EM.Dispatch(old(handlers), event, script)
    {
      ghost var w := W();
      ER.LeadsNowhere(w);
      if queue == [] {
        if !flashing { aborted := true; }
        return;
      }
      ER.LeadsOn(w, w, ER.Take);
      ER.ChangedOnce(handlers, queue[0]);
      var m := queue[0];
      queue := queue[1..];
      history := history + ER.ChangeOf(m);
      match m {
        case Add(event, entry) => HandleQueueAddHandler(event, entry);
        case Remove(caller) => HandleQueueRemoveHandlers(caller);
        case Signal(_, _) =>
          current := EQ.Current(m, EQ.Callbacks);
          assert W() == ER.Next(w, ER.Take);
          ghost var w1 := W();
          HandleQueueSignalEvent(m, script);
          if !aborted { ER.LeadsTrans(w, w1, W()); }
        case Phased(_, _) =>
          current := EQ.Current(m, EQ.Pre);
          assert W() == ER.Next(w, ER.Take);
          ghost var w1 := W();
          HandleQueueSignalEvent(m, script);
          if !aborted { ER.LeadsTrans(w, w1, W()); }
      }
    }
  }
}
