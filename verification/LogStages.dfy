/**
 The stages of a console's and of the file task's life as receivers of messages, and
 the bounds of their queues.
 */
module LogStages {
  import opened Common
  import opened LogFanout
  import opened LogLifetime
  import opened LogStranding

  ghost predicate Bounded(q: Option<seq<Event>>, cap: nat) {
    q.Some? ==> |q.value| <= cap
  }

  /** A console takes messages while it is ready, which is while it lives; it stays
      among the receivers until its destructor takes it out; then its queues go one
      after the other, and in the end it holds nothing. */
  ghost predicate Stage(console: Console, cap: nat) {
    && (console.ready <==> console.life.Alive?)
    && (console.registered <==> console.life.Alive? || console.life.NotReady?)
    && (console.life.Draining? || console.life.Dead? ==> console.queue.None?)
    && (console.life.Dead? || (console.life.Draining? && console.life.last) ==> console.deferred.None?)
    && (!console.life.Alive? ==> console.hand.None? && console.sending.None? && console.flush.NoFlush?)
    && Bounded(console.queue, cap) && Bounded(console.deferred, cap)
  }

  ghost predicate Staged(s: State) {
    && s.cap > 0 && Bounded(s.fileQueue, s.cap)
    && (forall c | 0 <= c < |s.consoles| :: Stage(s.consoles[c], s.cap))
  }

  lemma DeferBounded(s: State, c: nat, e: Event)
    requires s.cap > 0 && c < |s.consoles| && Bounded(s.consoles[c].deferred, s.cap)
    ensures c < |Defer(s, c, e).consoles| && Bounded(Defer(s, c, e).consoles[c].deferred, s.cap)
  {
    var console := s.consoles[c];
    var d := if console.deferred.Some? then console.deferred.value else [];
    if !(|d| < s.cap || d == []) && d[0].Msg? {
      ReleaseFrame(Put(s, c, console.(deferred := Some(d[1..] + [e]))), d[0].msg);
    }
  }

  lemma DeferringStaged(s: State, a: Action)
    requires Staged(s) && Enabled(s, a) && (a.DeferSend? || a.FlushReceive?)
    ensures Staged(Next(s, a))
  {
    var console := s.consoles[a.c];
    assert Stage(console, s.cap);
    DeferringFrame(s, a);
    if a.DeferSend? {
      DeferBounded(Put(s, a.c, console.(sending := None)), a.c, Msg(console.sending.value));
      DeferFrame(Put(s, a.c, console.(sending := None)), a.c, Msg(console.sending.value));
    } else {
      var q := console.deferred.value;
      var u := Put(s, a.c, console.(deferred := Some(q[1..])));
      if q[0].Msg? && console.insert {
        DeferBounded(u, a.c, q[0]);
        DeferFrame(u, a.c, q[0]);
      }
    }
  }

  lemma ShowingStaged(s: State, a: Action)
    requires Staged(s) && Enabled(s, a) && (a.Display? || a.FlushDisplay? || a.Drop?)
    ensures Staged(Next(s, a))
  {
    assert Stage(s.consoles[a.c], s.cap);
    ShowStepFrame(s, a);
    var console := s.consoles[a.c];
    if a.Display? {
      ReleaseFrame(Put(s, a.c, console.(hand := None)), console.hand.value);
    } else if a.FlushDisplay? {
      ReleaseFrame(Put(s, a.c, console.(flush := Polling)), console.flush.msg);
    } else if console.life.held[0].Msg? {
      ReleaseFrame(Put(s, a.c, console.(life := Draining(console.life.held[1..], console.life.last))),
                   console.life.held[0].msg);
    }
  }

  lemma HandOverStaged(s: State)
    requires Staged(s) && Enabled(s, HandOver)
    ensures Staged(Next(s, HandOver))
  {
    var r := s.fan.left[0];
    ReleaseFrame(s.(fan := Fan(s.fan.msg, s.fan.left[1..])), s.fan.msg);
    if r.ToConsole? && r.id < |s.consoles| { assert Stage(s.consoles[r.id], s.cap); }
  }

  lemma FileStaged(s: State, a: Action)
    requires Staged(s) && Enabled(s, a)
    requires a.LogBegin? || a.LogEnd? || a.StartFile? || a.StopFile? || a.SendExit?
          || a.FileReceive? || a.FileWrite? || a.FileDrop? || a.FileEmpty? || a.FileDelete?
    ensures Staged(Next(s, a))
  {
    OtherFrame(s, a);
    if a.FileWrite? || a.FileDrop? { FileBounded(s, a); }
  }

  lemma FileBounded(s: State, a: Action)
    requires Staged(s) && Enabled(s, a) && (a.FileWrite? || a.FileDrop?)
    ensures Next(s, a).cap == s.cap && Bounded(Next(s, a).fileQueue, s.cap)
  {
    if a.FileWrite? {
      ReleaseFrame(s.(fileTask := if a.failed then Emptying else Running), s.fileTask.msg);
    } else if s.fileQueue.value[0].Msg? {
      ReleaseFrame(s.(fileQueue := Some(s.fileQueue.value[1..])), s.fileQueue.value[0].msg);
    }
  }

  lemma ConsoleStaged(s: State, a: Action)
    requires Staged(s) && Enabled(s, a)
    requires a.Receive? || a.OpenConsole? || a.Input? || a.TakeInput? || a.GiveInput? || a.FlushBegin? || a.FlushEmpty?
          || a.FlushDelete? || a.Close? || a.Deregister? || a.Detach? || a.Drained?
    ensures Staged(Next(s, a))
  {
    if a.OpenConsole? { OpenStaged(s, a); }
    else { assert Stage(s.consoles[a.c], s.cap); }
  }

  lemma OpenStaged(s: State, a: Action)
    requires Staged(s) && Enabled(s, a) && a.OpenConsole?
    ensures Staged(Next(s, a))
  {
  }

  lemma StepStaged(s: State, a: Action)
    requires Staged(s) && Enabled(s, a)
    ensures Staged(Next(s, a))
  {
    if a.HandOver? { HandOverStaged(s); }
    else if a.DeferSend? || a.FlushReceive? { DeferringStaged(s, a); }
    else if a.Display? || a.FlushDisplay? || a.Drop? { ShowingStaged(s, a); }
    else if a.LogBegin? || a.LogEnd? || a.StartFile? || a.StopFile? || a.SendExit?
         || a.FileReceive? || a.FileWrite? || a.FileDrop? || a.FileEmpty? || a.FileDelete? { FileStaged(s, a); }
    else { ConsoleStaged(s, a); }
  }

  /** Over every run the consoles keep to their stages and all queues to their bound. */
  lemma {:induction false} AlwaysStaged(s: State, acts: seq<Action>)
    requires Staged(s) && IsRun(s, acts)
    ensures Staged(Run(s, acts))
    decreases |acts|
  {
    if acts != [] {
      StepStaged(s, acts[0]);
      AlwaysStaged(Next(s, acts[0]), acts[1..]);
    }
  }

  /** A console that is gone holds no reference. */
  lemma DeadHoldsNothing(cap: nat, s: State, c: nat, k: nat)
    requires cap > 0 && Reached(cap, s) && c < |s.consoles| && s.consoles[c].life.Dead?
    ensures Held(s.consoles[c], k) == 0 && !s.consoles[c].registered
  {
    var acts :| IsRun(Init(cap), acts) && Run(Init(cap), acts) == s;
    AlwaysStaged(Init(cap), acts);
    assert Stage(s.consoles[c], s.cap);
  }

  /** A message is handed over exactly to a receiver that lives and has room for it:
      it comes last in that queue, and everything else stays as it is; otherwise one
      reference to it is dropped. */
  lemma HandedOverIff(cap: nat, s: State)
    requires cap > 0 && Reached(cap, s) && Enabled(s, HandOver)
    ensures var t := Next(s, HandOver); var m := s.fan.msg;
      match s.fan.left[0]
      case ToConsole(c) =>
        if c < |s.consoles| && s.consoles[c].life.Alive? && s.consoles[c].queue.Some? && |s.consoles[c].queue.value| < s.cap
        then && t.consoles == s.consoles[c := s.consoles[c].(queue := Some(s.consoles[c].queue.value + [Msg(m)]))]
             && t.fileQueue == s.fileQueue && t.refs == s.refs && t.freed == s.freed
        else t.consoles == s.consoles && t.fileQueue == s.fileQueue && Count(t, m) == Count(s, m) - 1
      case ToFile =>
        if !s.fileTask.Off? && s.fileQueue.Some? && |s.fileQueue.value| < s.cap
        then && t.fileQueue == Some(s.fileQueue.value + [Msg(m)])
             && t.consoles == s.consoles && t.refs == s.refs && t.freed == s.freed
        else t.consoles == s.consoles && t.fileQueue == s.fileQueue && Count(t, m) == Count(s, m) - 1
  {
    var acts :| IsRun(Init(cap), acts) && Run(Init(cap), acts) == s;
    AlwaysStaged(Init(cap), acts);
    RunKeepsInv(Init(cap), acts);
    var m := s.fan.msg;
    assert Count(s, m) == References(s, m) + Occ(s.stranded, m) && Count(s, m) > 0;
    var u := s.(fan := Fan(m, s.fan.left[1..]));
    ReleaseFrame(u, m);
    ReleaseCounts(u, m);
    if s.fan.left[0].ToConsole? && s.fan.left[0].id < |s.consoles| { assert Stage(s.consoles[s.fan.left[0].id], s.cap); }
  }

  // -------------------------------------------------------- stopping in order

  ghost predicate FileStopping(s: State) {
    && s.fan.NoFan? && !s.fileRegistered && s.fileQueue.Some?
    && (s.fileTask.Running? || s.fileTask.Holding? ==> Exit in s.fileQueue.value)
    && !s.fileTask.Off?
  }

  ghost function FileStep(s: State): Action {
    match s.fileTask
    case Running => FileReceive
    case Holding(_) => FileWrite(false)
    case Emptying => if s.fileQueue.Some? && s.fileQueue.value != [] then FileDrop else FileEmpty
    case _ => FileDelete
  }

  ghost function FileAhead(s: State): nat {
    (if s.fileQueue.Some? then 2 * |s.fileQueue.value| else 0)
    + match s.fileTask case Running => 3 case Holding(_) => 4 case Emptying => 2 case Ending => 1 case Off => 0
  }

  lemma FileStepStops(s: State)
    requires FileStopping(s)
    ensures Enabled(s, FileStep(s)) && Orderly(s, FileStep(s))
    ensures var t := Next(s, FileStep(s)); FileAhead(t) < FileAhead(s) && (t.fileTask.Off? || FileStopping(t))
    ensures Next(s, FileStep(s)).consoles == s.consoles
  {
    if s.fileTask.Running? {
      var q := s.fileQueue.value;
      assert q[0] == Exit || Exit in q[1..];
    }
  }

  /** Once the exit command is queued and the task deregistered, it stops by its own
      steps alone, touching no console. */
  lemma {:induction false} FileTaskStops(s: State) returns (acts: seq<Action>)
    requires FileStopping(s)
    ensures IsOrderlyRun(s, acts) && IsRun(s, acts)
    ensures Run(s, acts).fileTask.Off? && Run(s, acts).fileQueue.None? && Run(s, acts).consoles == s.consoles
    decreases FileAhead(s)
  {
    FileStepStops(s);
    var a := FileStep(s);
    var t := Next(s, a);
    var rest := [];
    if !t.fileTask.Off? { rest := FileTaskStops(t); } else { assert s.fileTask.Ending?; }
    acts := [a] + rest;
    assert acts[1..] == rest;
  }

  /** So the file log can always be stopped in order while its queue has room. */
  lemma FileLogCanStop(s: State) returns (acts: seq<Action>)
    requires s.fan.NoFan? && (s.fileTask.Running? || s.fileTask.Holding?)
    requires s.fileQueue.Some? && |s.fileQueue.value| < s.cap
    ensures IsOrderlyRun(s, acts) && IsRun(s, acts) && Run(s, acts).fileTask.Off? && Run(s, acts).consoles == s.consoles
  {
    var s1 := Next(s, StopFile);
    var s2 := Next(s1, SendExit);
    assert Exit in s2.fileQueue.value;
    var rest := FileTaskStops(s2);
    acts := [StopFile] + ([SendExit] + rest);
    assert acts[1..] == [SendExit] + rest && acts[1..][1..] == rest;
    assert IsOrderlyRun(s1, [SendExit] + rest) && IsRun(s1, [SendExit] + rest);
    assert Run(s1, [SendExit] + rest) == Run(s2, rest);
  }

  /** Device input takes a place in the queue, of which the console lets go without
      showing anything. */
  lemma InputIsReceived(s: State, c: nat)
    requires Enabled(s, Input(c))
    ensures var t := Next(s, Input(c));
      && t.consoles == s.consoles[c := s.consoles[c].(queue := Some(s.consoles[c].queue.value + [Recv]))]
      && (Working(t, c) && s.consoles[c].queue.value == [] ==> Next(t, Receive(c)).consoles == s.consoles)
  {
    if s.consoles[c].queue.value == [] { assert [] + [Recv] == [Recv] && [Recv][1..] == []; }
  }

  // -------------------------------------------------------- a console's end

  ghost predicate Going(s: State, c: nat) {
    c < |s.consoles| && s.consoles[c].life.Draining?
  }

  ghost function DrainAhead(s: State, c: nat): nat
    requires Going(s, c)
  {
    var console := s.consoles[c];
    |console.life.held|
    + if console.life.last then 0 else 1 + if console.deferred.Some? then |console.deferred.value| else 0
  }

  ghost function DrainStep(s: State, c: nat): Action
    requires Going(s, c)
  {
    if s.consoles[c].life.held != [] then Drop(c) else Drained(c)
  }

  lemma DrainStepEnds(s: State, c: nat)
    requires Going(s, c)
    ensures Enabled(s, DrainStep(s, c))
    ensures var t := Next(s, DrainStep(s, c));
      && |t.consoles| == |s.consoles|
      && (t.consoles[c].life.Dead? || (Going(t, c) && DrainAhead(t, c) < DrainAhead(s, c)))
  {
    var console := s.consoles[c];
    if console.life.held != [] && console.life.held[0].Msg? {
      ReleaseFrame(Put(s, c, console.(life := Draining(console.life.held[1..], console.life.last))), console.life.held[0].msg);
    }
  }

  /** The destructor empties both queues and is done. */
  lemma {:induction false} DrainingEnds(s: State, c: nat) returns (acts: seq<Action>)
    requires Going(s, c)
    ensures IsRun(s, acts) && |Run(s, acts).consoles| == |s.consoles| && Run(s, acts).consoles[c].life.Dead?
    decreases DrainAhead(s, c)
  {
    DrainStepEnds(s, c);
    var a := DrainStep(s, c);
    var t := Next(s, a);
    var rest := [];
    if Going(t, c) { rest := DrainingEnds(t, c); }
    Prepend(s, a, rest);
    acts := [a] + rest;
  }

  /** An idle console can be closed and destroyed whenever no message is being handed
      out, and then holds no reference to anything. */
  lemma ConsoleCanGo(cap: nat, s: State, c: nat) returns (t: State)
    requires cap > 0 && Reached(cap, s) && s.fan.NoFan? && c < |s.consoles| && s.consoles[c].life.Alive?
    requires s.consoles[c].hand.None? && s.consoles[c].sending.None? && s.consoles[c].flush.NoFlush?
    ensures Reached(cap, t) && c < |t.consoles| && t.consoles[c].life.Dead? && forall k :: Held(t.consoles[c], k) == 0
  {
    var s1 := ReachedNext(cap, s, Close(c));
    var s2 := ReachedNext(cap, s1, Deregister(c));
    var s3 := ReachedNext(cap, s2, Detach(c));
    var acts := DrainingEnds(s3, c);
    t := ReachedAlong(cap, s3, acts);
    forall k ensures Held(t.consoles[c], k) == 0 { DeadHoldsNothing(cap, t, c, k); }
  }

  lemma {:induction false} ReachedAlong(cap: nat, s: State, acts: seq<Action>) returns (t: State)
    requires Reached(cap, s) && IsRun(s, acts)
    ensures t == Run(s, acts) && Reached(cap, t)
    decreases |acts|
  {
    if acts == [] {
      t := s;
    } else {
      var u := ReachedNext(cap, s, acts[0]);
      t := ReachedAlong(cap, u, acts[1..]);
    }
  }
}
