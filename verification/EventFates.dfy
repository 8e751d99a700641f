/** What becomes of every message and every signal: the queue is first in, first out
    but for the tickers it has no room for. */
module EventFates {
  import opened Common
  import opened EventQueue
  import opened EventLifecycle

  // ------------------------------------------------------------ messages

  /** The message a step tries to put into the queue. */
  ghost function Tried(s: State, a: Action): Option<Msg>
    requires Enabled(s, a)
  {
    match a
    case PostAdd(event, entry) => Some(Add(event, entry))
    case PostRemove(caller) => Some(Remove(caller))
    case RaiseNow(phased, event) => Some(New(s, phased, event))
    case TimerFires(t) => s.timers[t].payload
    case _ => None
  }

  predicate Full(s: State) { |s.queue| >= s.cap }

  /** The message a step sends, if it finds room, or if it does not. */
  ghost function SentNow(s: State, a: Action, room: bool): seq<Msg>
    requires Enabled(s, a)
  {
    if Tried(s, a).Some? && room == !Full(s) then [Tried(s, a).value] else []
  }

  ghost function TakenNow(s: State, a: Action): seq<Msg>
    requires Enabled(s, a)
  {
    if a.TakeNext? then [s.queue[0]] else []
  }

  /** The messages a run tries to send, in order, that find room, and those that
      do not. */
  ghost function Sent(s: State, acts: seq<Action>, room: bool): seq<Msg>
    requires IsRun(s, acts)
    decreases |acts|
  {
    if acts == [] then [] else SentNow(s, acts[0], room) + Sent(Next(s, acts[0]), acts[1..], room)
  }

  /** The messages the event task takes from the queue during a run. */
  ghost function Taken(s: State, acts: seq<Action>): seq<Msg>
    requires IsRun(s, acts)
    decreases |acts|
  {
    if acts == [] then [] else TakenNow(s, acts[0]) + Taken(Next(s, acts[0]), acts[1..])
  }

  predicate AllTickers(ms: seq<Msg>) {
    forall m | m in ms :: IsTicker(Checked(m))
  }

  function Names(ms: seq<Msg>): seq<string> {
    if ms == [] then [] else [Checked(ms[0])] + Names(ms[1..])
  }

  lemma StepSends(s: State, a: Action)
    requires Enabled(s, a)
    ensures var t := Next(s, a); var lost := SentNow(s, a, false);
      && s.queue + SentNow(s, a, true) == TakenNow(s, a) + t.queue
      && (t.aborted <==> !AllTickers(lost) || a == Timeout(false))
      && (!AllTickers(lost) ==> |lost| == 1 && t.overflows == s.overflows)
      && (AllTickers(lost) ==> t.overflows == s.overflows + Names(lost))
  {
    if Tried(s, a).Some? {
      var m := Tried(s, a).value;
      assert m in [m] && [m][1..] == [] && Names([m]) == [Checked(m)];
    }
  }

  /** The messages queued at first and those sent since that found room are the
      messages taken and those still queued, in the same order. */
  lemma {:induction false} FirstInFirstOut(s: State, acts: seq<Action>)
    requires IsRun(s, acts)
    ensures s.queue + Sent(s, acts, true) == Taken(s, acts) + Run(s, acts).queue
    decreases |acts|
  {
    if acts != [] {
      var u := Next(s, acts[0]);
      StepSends(s, acts[0]);
      FirstInFirstOut(u, acts[1..]);
      InTurn(s.queue, SentNow(s, acts[0], true), TakenNow(s, acts[0]), u.queue,
             Sent(u, acts[1..], true), Taken(u, acts[1..]), Run(u, acts[1..]).queue);
    }
  }

  lemma InTurn(q: seq<Msg>, now: seq<Msg>, takenNow: seq<Msg>, q': seq<Msg>,
               more: seq<Msg>, taken: seq<Msg>, left: seq<Msg>)
    requires q + now == takenNow + q' && q' + more == taken + left
    ensures q + (now + more) == (takenNow + taken) + left
  {
    assert q + (now + more) == (q + now) + more;
    assert (takenNow + q') + more == takenNow + (q' + more);
  }

  /** `reported` are the overflows reported when `lost` found no room: all of them, but
      the last if it was fatal. */
  predicate Reported(lost: seq<Msg>, reported: seq<string>) {
    if AllTickers(lost) then reported == Names(lost)
    else AllTickers(lost[..|lost| - 1]) && reported == Names(lost[..|lost| - 1])
  }

  predicate TimedOut(acts: seq<Action>) {
    acts != [] && acts[|acts| - 1] == Timeout(false)
  }

  /** A message that finds no room is a ticker, or the last of the run because the
      system aborts; so nothing is lost without an abort but tickers, and each of
      them is reported.  Besides that the system aborts when the queue stays empty. */
  lemma {:induction false} OnlyTickersAreDropped(s: State, acts: seq<Action>) returns (reported: seq<string>)
    requires IsRun(s, acts) && !s.aborted
    ensures Run(s, acts).aborted <==> !AllTickers(Sent(s, acts, false)) || TimedOut(acts)
    ensures Run(s, acts).overflows == s.overflows + reported
    ensures Reported(Sent(s, acts, false), reported)
    decreases |acts|
  {
    if acts == [] {
      reported := [];
    } else {
      var u := Next(s, acts[0]);
      if u.aborted {
        reported := AbortReports(s, acts);
      } else {
        var later := OnlyTickersAreDropped(u, acts[1..]);
        reported := StepReports(s, acts, later);
      }
    }
  }

  lemma AbortReports(s: State, acts: seq<Action>) returns (reported: seq<string>)
    requires IsRun(s, acts) && acts != [] && Next(s, acts[0]).aborted
    ensures Run(s, acts).aborted && Run(s, acts).overflows == s.overflows + reported
    ensures Reported(Sent(s, acts, false), reported) && (!AllTickers(Sent(s, acts, false)) || TimedOut(acts))
  {
    var now := SentNow(s, acts[0], false);
    StepSends(s, acts[0]);
    assert acts[1..] == [] && now + [] == now && Sent(s, acts, false) == now;
    if AllTickers(now) {
      reported := Names(now);
    } else {
      reported := [];
      assert now[..|now| - 1] == [];
    }
  }

  lemma StepReports(s: State, acts: seq<Action>, later: seq<string>) returns (reported: seq<string>)
    requires IsRun(s, acts) && acts != [] && !Next(s, acts[0]).aborted
    requires var u, rest := Next(s, acts[0]), acts[1..];
      && (Run(u, rest).aborted <==> !AllTickers(Sent(u, rest, false)) || TimedOut(rest))
      && Run(u, rest).overflows == u.overflows + later
      && Reported(Sent(u, rest, false), later)
    ensures Run(s, acts).aborted <==> !AllTickers(Sent(s, acts, false)) || TimedOut(acts)
    ensures Run(s, acts).overflows == s.overflows + reported
    ensures Reported(Sent(s, acts, false), reported)
  {
    var u, rest := Next(s, acts[0]), acts[1..];
    var now, more := SentNow(s, acts[0], false), Sent(u, rest, false);
    StepSends(s, acts[0]);
    ReportedMore(now, more, later);
    TimesOutLater(acts);
    assert Run(s, acts) == Run(u, rest) && Sent(s, acts, false) == now + more;
    reported := Names(now) + later;
    Joined(s.overflows, Names(now), later);
  }

  lemma TimesOutLater(acts: seq<Action>)
    requires acts != []
    ensures TimedOut(acts) <==> TimedOut(acts[1..]) || acts == [Timeout(false)]
  {
  }

  lemma Joined(a: seq<string>, b: seq<string>, c: seq<string>)
    ensures (a + b) + c == a + (b + c)
  {
  }

  lemma ReportedMore(now: seq<Msg>, more: seq<Msg>, reported: seq<string>)
    requires AllTickers(now) && Reported(more, reported)
    ensures Reported(now + more, Names(now) + reported)
    ensures AllTickers(now + more) <==> AllTickers(more)
  {
    TickersJoin(now, more);
    NamesJoin(now, more);
    if !AllTickers(more) { AllButLastJoin(now, more); }
  }

  lemma AllButLastJoin(now: seq<Msg>, more: seq<Msg>)
    requires more != []
    ensures var before := (now + more)[..|now + more| - 1];
      && Names(before) == Names(now) + Names(more[..|more| - 1])
      && (AllTickers(before) <==> AllTickers(now) && AllTickers(more[..|more| - 1]))
  {
    var before := (now + more)[..|now + more| - 1];
    assert before == now + more[..|more| - 1];
    NamesJoin(now, more[..|more| - 1]);
    TickersJoin(now, more[..|more| - 1]);
  }

  lemma TickersJoin(a: seq<Msg>, b: seq<Msg>)
    ensures AllTickers(a + b) <==> AllTickers(a) && AllTickers(b)
  {
    forall m ensures m in a + b <==> m in a || m in b { }
  }

  lemma {:induction false} NamesJoin(a: seq<Msg>, b: seq<Msg>)
    ensures Names(a + b) == Names(a) + Names(b)
  {
    if a == [] {
      assert a + b == b;
    } else {
      NamesJoin(a[1..], b);
      assert (a + b)[1..] == a[1..] + b;
    }
  }

  // ------------------------------------------------------------- signals

  /** Is the signal given up by this step: a ticker that a full queue has no room
      for, or a delayed signal that cannot be scheduled? */
  ghost predicate Refuses(s: State, a: Action, id: nat)
    requires Enabled(s, a)
  {
    match a
    case RaiseNow(_, event) => id == s.nextId && Full(s) && IsTicker(event)
    case RaiseLater(_, _, creates, starts) =>
      id == s.nextId && (!starts || (!creates && FirstIdle(s.timers) == |s.timers|))
    case TimerFires(t) =>
      var payload := s.timers[t].payload;
      payload.Some? && Is(payload.value, id) && Full(s) && IsTicker(Checked(payload.value))
    case _ => false
  }

  ghost predicate RefusedIn(s: State, acts: seq<Action>, id: nat)
    requires IsRun(s, acts)
    decreases |acts|
  {
    acts != [] && (Refuses(s, acts[0], id) || RefusedIn(Next(s, acts[0]), acts[1..], id))
  }

  /** The signal saw nothing but its clean-up. */
  ghost predicate IsBare(s: State, id: nat) {
    id < |s.raised| && Story(s.trace, id) == Bare(s.raised[id])
  }

  lemma CompletedIsBare(s: State, m: Msg, id: nat)
    requires IsSignal(m) && Known(s, m) && Story(s.trace, m.id) == []
    ensures IsBare(Complete(s, m), id) <==> id == m.id || IsBare(s, id)
  {
    StoryPush(s.trace, Seen(m.id, if m.Phased? then Free else Done), id);
  }

  lemma SendBares(s: State, m: Msg, id: nat)
    requires Known(s, m) && (IsSignal(m) ==> Story(s.trace, m.id) == []) && !Send(s, m).aborted
    ensures IsBare(Send(s, m), id) <==> IsBare(s, id) || (IsSignal(m) && m.id == id && Full(s))
  {
    if Full(s) && IsSignal(m) { CompletedIsBare(s.(overflows := s.overflows + [Checked(m)]), m, id); }
  }

  lemma RaisedIsNotBare(s: State, phased: bool, event: string, id: nat)
    requires Inv(s) && !s.aborted
    ensures var u := Raise(s, phased, event);
      Known(u, New(s, phased, event)) && Story(u.trace, s.nextId) == [] && (IsBare(u, id) <==> IsBare(s, id))
  {
    assert Owned(s, s.nextId);
  }

  lemma AdvanceBares(s: State, id: nat)
    requires Inv(s) && Enabled(s, Advance)
    ensures IsBare(Next(s, Advance), id) <==> IsBare(s, id)
  {
    var m := s.current.msg;
    AdvanceFrame(s);
    StoryPush(s.trace, Seen(m.id, s.current.next), id);
    assert Owned(s, m.id) && InHand(s, m.id) == 1;
    var before := Partial(m, s.current.next);
    assert Story(s.trace, m.id) == before;
    assert before != Bare(m) && before + [s.current.next] != Bare(m) by {
      if |before| > 0 { assert before[0] != Free && before[0] != Done && (before + [s.current.next])[0] == before[0]; }
      else { assert (before + [s.current.next])[0] == s.current.next; }
    }
  }

  lemma PendingHasNoStory(s: State, t: nat)
    requires Inv(s) && !s.aborted && t < |s.timers| && s.timers[t].payload.Some?
    ensures Known(s, s.timers[t].payload.value)
    ensures IsSignal(s.timers[t].payload.value) && Story(s.trace, s.timers[t].payload.value.id) == []
  {
    assert TimerInv(s.timers[t]);
    var m := s.timers[t].payload.value;
    TimersUpdate(s.timers, t, Timer(None, false), m.id);
    assert Owned(s, m.id);
  }

  lemma RaiseBares(s: State, a: Action, id: nat)
    requires Inv(s) && Enabled(s, a) && a.RaiseNow? && !Next(s, a).aborted
    ensures IsBare(Next(s, a), id) <==> IsBare(s, id) || Refuses(s, a, id)
  {
    RaisedIsNotBare(s, a.phased, a.event, id);
    SendBares(Raise(s, a.phased, a.event), New(s, a.phased, a.event), id);
  }

  lemma ScheduleBares(s: State, a: Action, id: nat)
    requires Inv(s) && Enabled(s, a) && a.RaiseLater?
    ensures IsBare(Next(s, a), id) <==> IsBare(s, id) || Refuses(s, a, id)
  {
    var u, m := Raise(s, a.phased, a.event), New(s, a.phased, a.event);
    RaisedIsNotBare(s, a.phased, a.event, id);
    CompletedIsBare(u, m, id);
    CompletedIsBare(u.(timers := Next(s, a).timers), m, id);
  }

  lemma FireBares(s: State, a: Action, id: nat)
    requires Inv(s) && Enabled(s, a) && a.TimerFires? && !Next(s, a).aborted
    ensures IsBare(Next(s, a), id) <==> IsBare(s, id) || Refuses(s, a, id)
  {
    if s.timers[a.t].payload.Some? {
      PendingHasNoStory(s, a.t);
      SendBares(s, s.timers[a.t].payload.value, id);
    }
  }

  lemma StepBares(s: State, a: Action, id: nat)
    requires Inv(s) && Enabled(s, a) && !Next(s, a).aborted
    ensures IsBare(Next(s, a), id) <==> IsBare(s, id) || Refuses(s, a, id)
  {
    match a
    case PostAdd(event, entry) => SendBares(s, Add(event, entry), id);
    case PostRemove(caller) => SendBares(s, Remove(caller), id);
    case RaiseNow(_, _) => RaiseBares(s, a, id);
    case RaiseLater(_, _, _, _) => ScheduleBares(s, a, id);
    case TimerFires(_) => FireBares(s, a, id);
    case Advance => AdvanceBares(s, id);
    case _ =>
  }

  lemma {:induction false} BareIffRefused(s: State, acts: seq<Action>, id: nat)
    requires Inv(s) && IsRun(s, acts) && !Run(s, acts).aborted
    ensures IsBare(Run(s, acts), id) <==> IsBare(s, id) || RefusedIn(s, acts, id)
    decreases |acts|
  {
    if acts != [] {
      var u := Next(s, acts[0]);
      StepKeepsInv(s, acts[0]);
      if u.aborted { AbortEnds(u, acts[1..]); }
      StepBares(s, acts[0], id);
      BareIffRefused(u, acts[1..], id);
    }
  }

  lemma AbortEnds(s: State, acts: seq<Action>)
    requires IsRun(s, acts) && s.aborted
    ensures acts == [] && Run(s, acts).aborted
  {
  }

  /** The signals a run raises, in order: whether with phases, and their names. */
  function Raisings(acts: seq<Action>): seq<(bool, string)> {
    if acts == [] then [] else RaisingOf(acts[0]) + Raisings(acts[1..])
  }

  function RaisingOf(a: Action): seq<(bool, string)> {
    match a
    case RaiseNow(phased, event) => [(phased, event)]
    case RaiseLater(phased, event, _, _) => [(phased, event)]
    case _ => []
  }

  /** Raising a signal makes it, with the next identity, of the kind and name asked for;
      no other step makes one. */
  lemma StepRaises(s: State, a: Action)
    requires Enabled(s, a)
    ensures a.RaiseNow? || a.RaiseLater? ==>
      && Next(s, a).nextId == s.nextId + 1
      && Next(s, a).raised == s.raised + [if a.phased then Phased(s.nextId, a.event) else Signal(s.nextId, a.event)]
    ensures !a.RaiseNow? && !a.RaiseLater? ==> Next(s, a).nextId == s.nextId && Next(s, a).raised == s.raised
  {
  }

  /** Where a signal goes that is raised: to the end of the queue, if there is room; if
      it is delayed, to the first timer that is idle, or else a new one. */
  lemma RaisedGoes(s: State, a: Action)
    requires Inv(s) && Enabled(s, a)
    ensures a.RaiseNow? && |s.queue| < s.cap ==>
      Next(s, a).queue == s.queue + [if a.phased then Phased(s.nextId, a.event) else Signal(s.nextId, a.event)]
    ensures a.RaiseLater? && a.starts && (a.creates || exists t :: 0 <= t < |s.timers| && !s.timers[t].active) ==>
      var u, t := Next(s, a), FirstIdle(s.timers);
      && t < |u.timers| && u.queue == s.queue && u.trace == s.trace
      && u.timers[t] == Timer(Some(if a.phased then Phased(s.nextId, a.event) else Signal(s.nextId, a.event)), true)
      && forall k | 0 <= k < |s.timers| && k != t :: u.timers[k] == s.timers[k]
  {
  }

  lemma {:induction false} RaisedAre(s: State, acts: seq<Action>, id: nat)
    requires IsRun(s, acts) && |s.raised| == s.nextId
    ensures var t := Run(s, acts);
      && |t.raised| == t.nextId == s.nextId + |Raisings(acts)| && s.raised <= t.raised
      && (s.nextId <= id < t.nextId ==>
            var (phased, event) := Raisings(acts)[id - s.nextId];
            t.raised[id] == if phased then Phased(id, event) else Signal(id, event))
    decreases |acts|
  {
    if acts != [] {
      StepRaises(s, acts[0]);
      RaisedAre(Next(s, acts[0]), acts[1..], id);
    }
  }

  /** A completed signal was handled, and then it went through its phases in order,
      a phased signal through Pre, callbacks, Post and FreeData, any other through its
      callbacks and its completion; or it was dropped with nothing but its clean-up,
      which happens exactly to a ticker that finds the queue full and to a delayed
      signal that cannot be scheduled. */
  lemma HandledOrRefused(cap: nat, acts: seq<Action>, id: nat)
    requires IsRun(Init(cap), acts) && !Run(Init(cap), acts).aborted && id < |Raisings(acts)|
    ensures id < Run(Init(cap), acts).nextId
    ensures var story := Story(Run(Init(cap), acts).trace, id); var phased := Raisings(acts)[id].0;
      && (phased ==> (Finished(story) <==> story == [Pre, Callbacks, Post, Free] || story == [Free]))
      && (!phased ==> (Finished(story) <==> story == [Callbacks, Done] || story == [Done]))
      && (story == [if phased then Free else Done] <==> RefusedIn(Init(cap), acts, id))
  {
    var s := Run(Init(cap), acts);
    InitInv(cap);
    RunKeepsInv(Init(cap), acts);
    RaisedAre(Init(cap), acts, id);
    BareIffRefused(Init(cap), acts, id);
    StoryOf(s, id);
  }

  lemma StoryOf(s: State, id: nat)
    requires Inv(s) && !s.aborted && id < s.nextId
    ensures id < |s.raised|
    ensures Finished(Story(s.trace, id)) <==>
      Story(s.trace, id) == Handled(s.raised[id]) || Story(s.trace, id) == Bare(s.raised[id])
  {
    assert Owned(s, id);
  }
}
