/**
 The bounded event queue, the timer pool for delayed signals and the life of a
 signal from `SignalEvent` to its completion.
 */
module EventQueue {
  import opened Common
  import EventMap

  /** An entry of the event task's queue. Signals carry an identity. */
  datatype Msg =
    | Add(event: string, entry: EventMap.Entry)
    | Remove(caller: string)
    | Signal(id: nat, event: string)
    | Phased(id: nat, event: string)

  /** A FreeRTOS timer of the pool, with its entry in `m_timer_active`. */
  datatype Timer = Timer(payload: Option<Msg>, active: bool)

  /** What happens to a signal. */
  datatype What = Pre | Callbacks | Post | Free | Done

  datatype Seen = Seen(id: nat, what: What)

  /** The signal being handled and the next thing to do for it. */
  datatype Current = NoCurrent | Current(msg: Msg, next: What)

  /** `raised` records every signal under its identity. */
  datatype State = State(
    cap: nat,
    queue: seq<Msg>,
    timers: seq<Timer>,
    high: nat,
    nextId: nat,
    raised: seq<Msg>,
    current: Current,
    trace: seq<Seen>,
    overflows: seq<string>,
    aborted: bool)

  datatype Action =
    | PostAdd(event: string, entry: EventMap.Entry) | PostRemove(caller: string)
    | RaiseNow(phased: bool, event: string)
    | RaiseLater(phased: bool, event: string, creates: bool, starts: bool)
    | TimerFires(t: nat)
    | TakeNext
    | Advance
    | Timeout(flashing: bool)

  ghost function Init(cap: nat): State {
    State(cap, [], [], 0, 0, [], NoCurrent, [], [], false)
  }

  predicate IsSignal(m: Msg) { m.Signal? || m.Phased? }

  /** `strncmp(event, "ticker.", 7) == 0`. */
  predicate IsTicker(s: string): (r: bool)
    ensures r <==> |s| >= 7 && s[..7] == "ticker."
  {
    "ticker." <= s
  }

  /** The string `CheckQueueOverflow` is called with. */
  function Checked(m: Msg): string {
    if m.Remove? then m.caller else m.event
  }

  // ------------------------------------------------------------------ steps

  /** `FreeQueueSignalEvent`. */
  ghost function Complete(s: State, m: Msg): State
    requires IsSignal(m)
  {
    s.(trace := s.trace + [Seen(m.id, if m.Phased? then Free else Done)])
  }

  /** `xQueueSend` with the overflow handling of every sender: a lost message is
      fatal unless it is a ticker. */
  ghost function Send(s: State, m: Msg): State {
    if |s.queue| < s.cap then s.(queue := s.queue + [m])
    else if !IsTicker(Checked(m)) then s.(aborted := true)
    else
      var t := s.(overflows := s.overflows + [Checked(m)]);
      if IsSignal(m) then Complete(t, m) else t
  }

  /** The first timer not marked active, or the pool's size. */
  function FirstIdle(timers: seq<Timer>): (t: nat)
    ensures t <= |timers|
    ensures forall k | 0 <= k < t :: timers[k].active
    ensures t < |timers| ==> !timers[t].active
  {
    if timers == [] || !timers[0].active then 0 else 1 + FirstIdle(timers[1..])
  }

  function Active(timers: seq<Timer>): nat {
    if timers == [] then 0 else (if timers[0].active then 1 else 0) + Active(timers[1..])
  }

  /** The pool with an idle timer. */
  function WithIdle(timers: seq<Timer>): (r: seq<Timer>)
    ensures FirstIdle(timers) < |r|
  {
    if FirstIdle(timers) == |timers| then timers + [Timer(None, false)] else timers
  }

  /** A timer of the pool takes the signal. */
  ghost function Start(s: State, t: nat, m: Msg): State
    requires t < |s.timers|
  {
    var pool := s.timers[t := Timer(Some(m), true)];
    s.(timers := pool, high := if Active(pool) > s.high then Active(pool) else s.high)
  }

  /** `ScheduleEvent`: reuse an idle timer or create one, then set the payload. */
  ghost function Schedule(s: State, m: Msg, creates: bool, starts: bool): State
    requires IsSignal(m)
  {
    var t := FirstIdle(s.timers);
    if t == |s.timers| && !creates then Complete(s, m)
    else
      var u := s.(timers := WithIdle(s.timers));
      if !starts then Complete(u.(timers := u.timers[t := u.timers[t].(payload := None)]), m)
      else Start(u, t, m)
  }

  /** `SignalScheduledEvent`, which may be invoked at any time for any timer. */
  ghost function Fire(s: State, t: nat): State
    requires t < |s.timers|
  {
    match s.timers[t].payload
    case None => s
    case Some(m) =>
      var u := Send(s, m);
      if u.aborted then u else u.(timers := s.timers[t := Timer(None, false)])
  }

  ghost predicate Enabled(s: State, a: Action) {
    && !s.aborted
    && match a
       case TimerFires(t) => t < |s.timers|
       case TakeNext => s.current.NoCurrent? && s.queue != []
       case Advance => s.current.Current?
       case Timeout(_) => s.current.NoCurrent? && s.queue == []
       case _ => true
  }

  /** A fresh signal. */
  function New(s: State, phased: bool, event: string): Msg {
    if phased then Phased(s.nextId, event) else Signal(s.nextId, event)
  }

  ghost function Raise(s: State, phased: bool, event: string): State {
    s.(nextId := s.nextId + 1, raised := s.raised + [New(s, phased, event)])
  }

  /** The event task's progress through one signal. */
  ghost function AdvanceNext(s: State): State
    requires s.current.Current?
  {
    var m := s.current.msg;
    if !IsSignal(m) then s.(current := NoCurrent)
    else
      match s.current.next
      case Pre => s.(trace := s.trace + [Seen(m.id, Pre)], current := Current(m, Callbacks))
      case Callbacks =>
        s.(trace := s.trace + [Seen(m.id, Callbacks)],
           current := Current(m, if m.Phased? then Post else Done))
      case Post => s.(trace := s.trace + [Seen(m.id, Post)], current := Current(m, Free))
      case _ => Complete(s.(current := NoCurrent), m)
  }

  /** Nothing has been received for five seconds: fatal, unless the firmware is being
      flashed. */
  ghost function Starved(s: State, flashing: bool): State {
    if flashing then s else s.(aborted := true)
  }

  ghost function Next(s: State, a: Action): State
    requires Enabled(s, a)
  {
    match a
    case PostAdd(event, entry) => Send(s, Add(event, entry))
    case PostRemove(caller) => Send(s, Remove(caller))
    case RaiseNow(phased, event) => Send(Raise(s, phased, event), New(s, phased, event))
    case RaiseLater(phased, event, creates, starts) =>
      Schedule(Raise(s, phased, event), New(s, phased, event), creates, starts)
    case TimerFires(t) => Fire(s, t)
    case TakeNext =>
      var m := s.queue[0];
      var t := s.(queue := s.queue[1..]);
      if m.Phased? then t.(current := Current(m, Pre))
      else if m.Signal? then t.(current := Current(m, Callbacks))
      else t
    case Advance => AdvanceNext(s)
    case Timeout(flashing) => Starved(s, flashing)
  }

  // --------------------------------------------------- where a signal is

  predicate Is(m: Msg, id: nat) { IsSignal(m) && m.id == id }

  ghost function InQueue(q: seq<Msg>, id: nat): nat {
    if q == [] then 0 else (if Is(q[0], id) then 1 else 0) + InQueue(q[1..], id)
  }

  ghost function InTimers(ts: seq<Timer>, id: nat): nat {
    if ts == [] then 0
    else (if ts[0].payload.Some? && Is(ts[0].payload.value, id) then 1 else 0) + InTimers(ts[1..], id)
  }

  ghost function InHand(s: State, id: nat): nat {
    if s.current.Current? && Is(s.current.msg, id) then 1 else 0
  }

  /** What has been observed of one signal, in order. */
  ghost function Story(trace: seq<Seen>, id: nat): seq<What> {
    if trace == [] then []
    else Story(trace[..|trace| - 1], id)
         + if trace[|trace| - 1].id == id then [trace[|trace| - 1].what] else []
  }

  predicate Finished(story: seq<What>) {
    story != [] && (story[|story| - 1] == Free || story[|story| - 1] == Done)
  }

  ghost function Completions(story: seq<What>): nat {
    if story == [] then 0
    else Completions(story[..|story| - 1])
         + if story[|story| - 1] == Free || story[|story| - 1] == Done then 1 else 0
  }

  /** The story of a signal that was handled. */
  function Handled(m: Msg): seq<What> {
    if m.Phased? then [Pre, Callbacks, Post, Free] else [Callbacks, Done]
  }

  /** The story of a signal that was dropped: nothing but its clean-up. */
  function Bare(m: Msg): seq<What> {
    if m.Phased? then [Free] else [Done]
  }

  /** The story of a signal that is being handled. */
  function Partial(m: Msg, next: What): seq<What> {
    match next
    case Pre => []
    case Callbacks => if m.Phased? then [Pre] else []
    case Post => [Pre, Callbacks]
    case Free => [Pre, Callbacks, Post]
    case Done => [Callbacks]
  }

  // ------------------------------------------------------------- invariant

  ghost predicate Owned(s: State, id: nat) {
    var places := InQueue(s.queue, id) + InTimers(s.timers, id) + InHand(s, id);
    && (id >= s.nextId ==> places == 0 && Story(s.trace, id) == [])
    && (id < s.nextId ==>
          || (places == 1 && Story(s.trace, id) ==
                if InHand(s, id) == 1 then Partial(s.current.msg, s.current.next) else [])
          || (places == 0 && id < |s.raised|
              && (Story(s.trace, id) == Handled(s.raised[id]) || Story(s.trace, id) == Bare(s.raised[id]))))
  }

  ghost predicate TimerInv(t: Timer) {
    (t.active <==> t.payload.Some?) && (t.payload.Some? ==> IsSignal(t.payload.value))
  }

  ghost predicate Ordered(s: State) {
    s.current.Current? ==>
      && IsSignal(s.current.msg)
      && (if s.current.msg.Phased? then s.current.next in {Pre, Callbacks, Post, Free}
          else s.current.next in {Callbacks, Done})
  }

  /** A signal is the one recorded under its identity. */
  ghost predicate Known(s: State, m: Msg) {
    IsSignal(m) ==> m.id < |s.raised| && s.raised[m.id] == m
  }

  ghost predicate Recorded(s: State) {
    && |s.raised| == s.nextId
    && (forall id | 0 <= id < |s.raised| :: Is(s.raised[id], id))
    && (forall k | 0 <= k < |s.queue| :: Known(s, s.queue[k]))
    && (forall t | 0 <= t < |s.timers| && s.timers[t].payload.Some? :: Known(s, s.timers[t].payload.value))
    && (s.current.Current? ==> Known(s, s.current.msg))
  }

  ghost predicate Bounds(s: State) {
    && Recorded(s)
    && (forall t | 0 <= t < |s.timers| :: TimerInv(s.timers[t]))
    && Ordered(s)
    && Active(s.timers) <= s.high
    && |s.timers| <= s.high + 1
    && |s.queue| <= s.cap
  }

  /** Holds until the system aborts. */
  ghost predicate Inv(s: State) {
    !s.aborted ==> Bounds(s) && forall id: nat :: Owned(s, id)
  }

  /** `m` has been taken from one place and not yet put into another. */
  ghost predicate Loose(s: State, m: Msg) {
    && !s.aborted && Bounds(s) && Known(s, m)
    && (forall id: nat | !Is(m, id) :: Owned(s, id))
    && (IsSignal(m) ==>
          && m.id < s.nextId && Story(s.trace, m.id) == []
          && InQueue(s.queue, m.id) + InTimers(s.timers, m.id) + InHand(s, m.id) == 0)
  }

  // ---------------------------------------------------------------- lemmas

  lemma {:induction false} InQueueAppend(q: seq<Msg>, m: Msg, id: nat)
    ensures InQueue(q + [m], id) == InQueue(q, id) + if Is(m, id) then 1 else 0
  {
    if q == [] {
      assert q + [m] == [m];
    } else {
      InQueueAppend(q[1..], m, id);
      assert (q + [m])[1..] == q[1..] + [m];
    }
  }

  /** What one timer contributes. */
  ghost function Holds(t: Timer, id: nat): nat {
    if t.payload.Some? && Is(t.payload.value, id) then 1 else 0
  }

  lemma {:induction false} TimersUpdate(ts: seq<Timer>, t: nat, timer: Timer, id: nat)
    requires t < |ts|
    ensures InTimers(ts[t := timer], id) + Holds(ts[t], id) == InTimers(ts, id) + Holds(timer, id)
    ensures Active(ts[t := timer]) + (if ts[t].active then 1 else 0) == Active(ts) + if timer.active then 1 else 0
  {
    if t == 0 {
      assert ts[t := timer][1..] == ts[1..];
    } else {
      TimersUpdate(ts[1..], t - 1, timer, id);
      assert ts[t := timer][1..] == ts[1..][t - 1 := timer];
    }
  }

  lemma {:induction false} TimersAppend(ts: seq<Timer>, timer: Timer, id: nat)
    ensures InTimers(ts + [timer], id) == InTimers(ts, id) + Holds(timer, id)
    ensures Active(ts + [timer]) == Active(ts) + if timer.active then 1 else 0
  {
    if ts == [] {
      assert ts + [timer] == [timer];
    } else {
      TimersAppend(ts[1..], timer, id);
      assert (ts + [timer])[1..] == ts[1..] + [timer];
    }
  }

  lemma {:induction false} AllActive(ts: seq<Timer>)
    ensures FirstIdle(ts) == |ts| ==> Active(ts) == |ts|
    ensures Active(ts) <= |ts|
  {
    if ts != [] { AllActive(ts[1..]); }
  }

  lemma StoryPush(trace: seq<Seen>, x: Seen, id: nat)
    ensures Story(trace + [x], id) == Story(trace, id) + if x.id == id then [x.what] else []
  {
    assert (trace + [x])[..|trace|] == trace;
  }

  /** Completing a loose signal drops it: its whole story is the clean-up. */
  lemma CompleteLoose(s: State, m: Msg)
    requires IsSignal(m) && Loose(s, m)
    ensures Inv(Complete(s, m)) && !Complete(s, m).aborted
  {
    var t := Complete(s, m);
    forall id: nat ensures Owned(t, id) {
      StoryPush(s.trace, Seen(m.id, if m.Phased? then Free else Done), id);
      if id != m.id { assert Owned(s, id); }
      else { assert Story(t.trace, id) == [if m.Phased? then Free else Done]; }
    }
  }

  /** `Send` gives the message to the queue, completes it, or aborts. */
  lemma SendLoose(s: State, m: Msg)
    requires Loose(s, m)
    ensures Inv(Send(s, m))
  {
    var t := Send(s, m);
    if |s.queue| < s.cap {
      forall id: nat ensures Owned(t, id) {
        InQueueAppend(s.queue, m, id);
        if !Is(m, id) { assert Owned(s, id); }
      }
    } else if IsTicker(Checked(m)) {
      var u := s.(overflows := s.overflows + [Checked(m)]);
      forall id: nat | !Is(m, id) ensures Owned(u, id) { assert Owned(s, id); }
      if IsSignal(m) { CompleteLoose(u, m); }
    }
  }

  lemma NewIsLoose(s: State, phased: bool, event: string)
    requires Inv(s) && !s.aborted
    ensures Loose(Raise(s, phased, event), New(s, phased, event))
  {
    var t := Raise(s, phased, event);
    assert Owned(s, s.nextId);
    forall id: nat | id != s.nextId ensures Owned(t, id) { assert Owned(s, id); }
  }

  lemma PoolLoose(s: State, m: Msg)
    requires Loose(s, m)
    ensures Loose(s.(timers := WithIdle(s.timers)), m)
    ensures var t := FirstIdle(s.timers); var pool := WithIdle(s.timers);
      t < |pool| && !pool[t].active && TimerInv(pool[t]) && (|pool| == |s.timers| || Active(pool) == |pool| - 1)
  {
    var pool := WithIdle(s.timers);
    AllActive(s.timers);
    TimersAppend(s.timers, Timer(None, false), 0);
    assert TimerInv(pool[FirstIdle(s.timers)]);
    var u := s.(timers := pool);
    forall id: nat | !Is(m, id) ensures Owned(u, id) {
      assert Owned(s, id);
      TimersAppend(s.timers, Timer(None, false), id);
    }
    if IsSignal(m) { TimersAppend(s.timers, Timer(None, false), m.id); }
  }

  lemma StartLoose(s: State, t: nat, m: Msg)
    requires IsSignal(m) && Loose(s, m) && t < |s.timers| && !s.timers[t].active
    ensures Inv(Start(s, t, m))
  {
    var u := Start(s, t, m);
    assert TimerInv(s.timers[t]);
    TimersUpdate(s.timers, t, Timer(Some(m), true), m.id);
    forall id: nat ensures Owned(u, id) {
      TimersUpdate(s.timers, t, Timer(Some(m), true), id);
      if id != m.id { assert Owned(s, id); }
    }
  }

  lemma ScheduleLoose(s: State, m: Msg, creates: bool, starts: bool)
    requires IsSignal(m) && Loose(s, m)
    ensures Inv(Schedule(s, m, creates, starts))
  {
    var t := FirstIdle(s.timers);
    if t == |s.timers| && !creates {
      CompleteLoose(s, m);
    } else {
      PoolLoose(s, m);
      var pool := WithIdle(s.timers);
      var u := s.(timers := pool);
      if !starts {
        assert pool[t := pool[t].(payload := None)] == pool;
        CompleteLoose(u, m);
      } else {
        StartLoose(u, t, m);
      }
    }
  }

  lemma FireKeepsInv(s: State, t: nat)
    requires Inv(s) && Enabled(s, TimerFires(t))
    ensures Inv(Fire(s, t))
  {
    assert TimerInv(s.timers[t]);
    if s.timers[t].payload.Some? {
      var m := s.timers[t].payload.value;
      var u := s.(timers := s.timers[t := Timer(None, false)]);
      assert Owned(s, m.id);
      TimersUpdate(s.timers, t, Timer(None, false), m.id);
      forall id: nat | id != m.id ensures Owned(u, id) {
        assert Owned(s, id);
        TimersUpdate(s.timers, t, Timer(None, false), id);
      }
      assert Loose(u, m);
      SendLoose(u, m);
      assert Fire(s, t).aborted || Fire(s, t) == Send(u, m);
    }
  }

  lemma TakeKeepsInv(s: State)
    requires Inv(s) && Enabled(s, TakeNext)
    ensures Inv(Next(s, TakeNext))
  {
    var t := Next(s, TakeNext);
    forall id: nat ensures Owned(t, id) { assert Owned(s, id); }
  }

  lemma AdvanceFrame(s: State)
    requires Inv(s) && Enabled(s, Advance)
    ensures var t := Next(s, Advance); var m := s.current.msg;
      && t.trace == s.trace + [Seen(m.id, s.current.next)]
      && t == s.(trace := t.trace, current := t.current)
      && (if s.current.next == Free || s.current.next == Done then t.current.NoCurrent?
          else t.current.Current? && t.current.msg == m
               && t.current.next == (if s.current.next == Pre then Callbacks
                                     else if s.current.next == Post then Free
                                     else if m.Phased? then Post else Done))
  {
  }

  lemma AdvanceKeepsInv(s: State)
    requires Inv(s) && Enabled(s, Advance)
    ensures Inv(Next(s, Advance))
  {
    var m := s.current.msg;
    var t := Next(s, Advance);
    AdvanceFrame(s);
    forall id: nat ensures Owned(t, id) {
      assert Owned(s, id);
      StoryPush(s.trace, Seen(m.id, s.current.next), id);
    }
  }

  lemma StepKeepsInv(s: State, a: Action)
    requires Inv(s) && Enabled(s, a)
    ensures Inv(Next(s, a))
  {
    match a
    case PostAdd(event, entry) => SendLoose(s, Add(event, entry));
    case PostRemove(caller) => SendLoose(s, Remove(caller));
    case RaiseNow(phased, event) =>
      NewIsLoose(s, phased, event);
      SendLoose(Raise(s, phased, event), New(s, phased, event));
    case RaiseLater(phased, event, creates, starts) =>
      NewIsLoose(s, phased, event);
      ScheduleLoose(Raise(s, phased, event), New(s, phased, event), creates, starts);
    case TimerFires(t) => FireKeepsInv(s, t);
    case TakeNext => TakeKeepsInv(s);
    case Advance => AdvanceKeepsInv(s);
    case Timeout(_) =>
  }
}
