/** What the log fan-out guarantees about the life of a message over whole runs. */
module LogLifetime {
  import opened Common
  import opened LogFanout

  ghost predicate IsRun(s: State, acts: seq<Action>)
    decreases |acts|
  {
    acts == [] || (Enabled(s, acts[0]) && IsRun(Next(s, acts[0]), acts[1..]))
  }

  ghost function Run(s: State, acts: seq<Action>): State
    requires IsRun(s, acts)
    decreases |acts|
  {
    if acts == [] then s else Run(Next(s, acts[0]), acts[1..])
  }

  lemma {:induction false} RunKeepsInv(s: State, acts: seq<Action>)
    requires Inv(s) && IsRun(s, acts)
    ensures Inv(Run(s, acts))
    decreases |acts|
  {
    if acts != [] {
      StepKeepsInv(s, acts[0]);
      RunKeepsInv(Next(s, acts[0]), acts[1..]);
    }
  }

  /** In every reachable state the count of every message is the number of
      hand-overs still to make, queue entries and references in hand, plus what
      was lost with deleted queues. */
  lemma CountIsReferences(cap: nat, acts: seq<Action>, m: nat)
    requires cap > 0 && IsRun(Init(cap), acts)
    ensures var s := Run(Init(cap), acts);
      Count(s, m) == References(s, m) + Occ(s.stranded, m)
  {
    RunKeepsInv(Init(cap), acts);
  }

  /** A message is freed exactly when nobody refers to it any more; the exceptions
      are messages issued to no receiver and references lost with a queue. */
  lemma FreedIffUnreferenced(cap: nat, acts: seq<Action>, m: nat)
    requires cap > 0 && IsRun(Init(cap), acts)
    ensures var s := Run(Init(cap), acts);
      m < s.nextMsg ==>
        (m in s.freed <==> References(s, m) == 0 && Occ(s.stranded, m) == 0 && m !in s.unheard)
  {
    RunKeepsInv(Init(cap), acts);
    var s := Run(Init(cap), acts);
    assert Count(s, m) == References(s, m) + Occ(s.stranded, m);
  }

  // ------------------------------------------------------- use after free

  /** The messages a step dereferences. */
  ghost function Uses(s: State, a: Action): set<nat>
    requires Enabled(s, a)
  {
    match a
    case HandOver => {s.fan.msg}
    case Receive(c) =>
      var e := s.consoles[c].queue.value[0];
      if e.Msg? then {e.msg} else {}
    case DeferSend(c) => {s.consoles[c].sending.value} + OldestDeferred(s, c)
    case FlushReceive(c) =>
      var e := s.consoles[c].deferred.value[0];
      if e.Msg? then {e.msg} else {}
    case Display(c) => {s.consoles[c].hand.value}
    case FlushDisplay(c) => {s.consoles[c].flush.msg}
    case Drop(c) => if s.consoles[c].life.held[0].Msg? then {s.consoles[c].life.held[0].msg} else {}
    case FileReceive => if s.fileQueue.value[0].Msg? then {s.fileQueue.value[0].msg} else {}
    case FileWrite(_) => {s.fileTask.msg}
    case FileDrop => if s.fileQueue.value[0].Msg? then {s.fileQueue.value[0].msg} else {}
    case _ => {}
  }

  /** The message that a full deferred queue gives up. */
  ghost function OldestDeferred(s: State, c: nat): set<nat>
    requires c < |s.consoles|
  {
    var d := s.consoles[c].deferred;
    if d.Some? && d.value != [] && |d.value| >= s.cap && d.value[0].Msg? then {d.value[0].msg} else {}
  }

  lemma {:induction false} HeldBelongs(cs: seq<Console>, c: nat, k: nat)
    requires c < |cs|
    ensures AllHeld(cs, k) >= Held(cs[c], k)
  {
    if c > 0 {
      HeldBelongs(cs[1..], c - 1, k);
    }
  }

  /** No step of any run dereferences a freed message. */
  lemma NoUseAfterFree(cap: nat, acts: seq<Action>, a: Action, m: nat)
    requires cap > 0 && IsRun(Init(cap), acts)
    requires Enabled(Run(Init(cap), acts), a) && m in Uses(Run(Init(cap), acts), a)
    ensures m in Run(Init(cap), acts).refs && m !in Run(Init(cap), acts).freed
  {
    RunKeepsInv(Init(cap), acts);
    var s := Run(Init(cap), acts);
    UsedIsReferenced(s, a, m);
    assert Count(s, m) == References(s, m) + Occ(s.stranded, m);
  }

  lemma UsedIsReferenced(s: State, a: Action, m: nat)
    requires Enabled(s, a) && m in Uses(s, a)
    ensures References(s, m) > 0
  {
    match a
    case Receive(c) => HeldBelongs(s.consoles, c, m);
    case DeferSend(c) => HeldBelongs(s.consoles, c, m);
    case FlushReceive(c) => HeldBelongs(s.consoles, c, m);
    case Display(c) => HeldBelongs(s.consoles, c, m);
    case FlushDisplay(c) => HeldBelongs(s.consoles, c, m);
    case Drop(c) => HeldBelongs(s.consoles, c, m);
    case _ =>
  }

  /** How one step may change the set of freed messages. */
  ghost predicate FreesOnlyLast(s: State, t: State) {
    && s.freed <= t.freed
    && (forall m | m in t.freed && m !in s.freed :: Count(s, m) == 1)
  }

  lemma ReleaseFreesOnlyLast(s: State, m: nat)
    ensures FreesOnlyLast(s, Release(s, m))
  {
  }

  lemma DeferFreesOnlyLast(s: State, c: nat, e: Event)
    requires c < |s.consoles|
    ensures FreesOnlyLast(s, Defer(s, c, e))
  {
    var console := s.consoles[c];
    var d := if console.deferred.Some? then console.deferred.value else [];
    if !(|d| < s.cap || d == []) && d[0].Msg? {
      ReleaseFreesOnlyLast(Put(s, c, console.(deferred := Some(d[1..] + [e]))), d[0].msg);
    }
  }

  lemma DeferringFreesOnlyLast(s: State, a: Action)
    requires Enabled(s, a) && (a.DeferSend? || a.FlushReceive?)
    ensures FreesOnlyLast(s, Next(s, a))
  {
    var console := s.consoles[a.c];
    if a.DeferSend? {
      DeferFreesOnlyLast(Put(s, a.c, console.(sending := None)), a.c, Msg(console.sending.value));
    } else {
      var q := console.deferred.value;
      if q[0].Msg? && console.insert {
        DeferFreesOnlyLast(Put(s, a.c, console.(deferred := Some(q[1..]))), a.c, q[0]);
      }
    }
  }

  lemma ShowFreesOnlyLast(s: State, a: Action)
    requires Enabled(s, a) && (a.Display? || a.FlushDisplay? || a.Drop?)
    ensures FreesOnlyLast(s, Next(s, a))
  {
  }

  lemma OtherFreesOnlyLast(s: State, a: Action)
    requires Enabled(s, a)
    requires !a.DeferSend? && !a.FlushReceive? && !a.Display? && !a.FlushDisplay? && !a.Drop?
    ensures FreesOnlyLast(s, Next(s, a))
  {
  }

  /** Freeing happens once: it needs a count of one, and afterwards the message
      stays freed and is never counted again. */
  lemma FreedOnce(s: State, a: Action)
    requires Inv(s) && Enabled(s, a)
    ensures FreesOnlyLast(s, Next(s, a))
    ensures forall m | m in Next(s, a).freed :: m !in Next(s, a).refs
  {
    StepKeepsInv(s, a);
    if a.DeferSend? || a.FlushReceive? { DeferringFreesOnlyLast(s, a); }
    else if a.Display? || a.FlushDisplay? || a.Drop? { ShowFreesOnlyLast(s, a); }
    else { OtherFreesOnlyLast(s, a); }
  }

  // ------------------------------------------------- references that get lost

  /** No command takes the input while a deferred queue is being flushed, no flush
      begins while a message is on its way there, the file task ends only on request,
      and `StopLogTask` deregisters it first. */
  ghost predicate Orderly(s: State, a: Action) {
    match a
    case TakeInput(c) => c < |s.consoles| ==> s.consoles[c].flush.NoFlush?
    case FlushBegin(c) => c < |s.consoles| ==> !s.consoles[c].insert && s.consoles[c].sending.None?
    case FileWrite(failed) => !failed
    case SendExit => !s.fileRegistered
    case _ => true
  }

  ghost predicate IsOrderlyRun(s: State, acts: seq<Action>)
    decreases |acts|
  {
    acts == [] || (Enabled(s, acts[0]) && Orderly(s, acts[0]) && IsOrderlyRun(Next(s, acts[0]), acts[1..]))
  }

  ghost predicate FlushTidy(console: Console) {
    && (console.flush.NoFlush? || (!console.insert && console.sending.None? && console.life.Alive?))
    && (console.flush.Deleting? ==> console.deferred == Some([]))
  }

  ghost predicate NoMsg(q: seq<Event>) {
    forall e | e in q :: !e.Msg?
  }

  lemma {:induction false} NoMsgNoOcc(q: seq<Event>, k: nat)
    requires NoMsg(q)
    ensures Occ(q, k) == 0
  {
    if q != [] {
      assert q[0] in q;
      NoMsgNoOcc(q[1..], k);
    }
  }

  ghost predicate FileTidy(s: State) {
    && NoMsg(s.stranded)
    && (s.fan.Fan? && ToFile in s.fan.left ==> s.fileRegistered)
    && (s.fileTask.Emptying? || s.fileTask.Ending? ==> !s.fileRegistered)
    && (s.fileQueue.Some? && Exit in s.fileQueue.value ==> !s.fileRegistered)
    && (s.fileQueue.Some? ==> Recv !in s.fileQueue.value)
    && (s.fileTask.Ending? && s.fileQueue.Some? ==> NoMsg(s.fileQueue.value))
    && (s.fileTask.Off? ==> s.fileQueue.None?)
  }

  ghost predicate Tidy(s: State) {
    && FileTidy(s)
    && (forall c | 0 <= c < |s.consoles| :: FlushTidy(s.consoles[c]))
  }

  /** A release touches nothing but the counts. */
  lemma ReleaseFrame(s: State, m: nat)
    ensures var t := Release(s, m);
      && t.consoles == s.consoles && t.fan == s.fan && t.fileRegistered == s.fileRegistered
      && t.fileTask == s.fileTask && t.fileQueue == s.fileQueue && t.stranded == s.stranded
  {
  }

  /** What deferring a message leaves alone. */
  lemma DeferFrame(s: State, c: nat, e: Event)
    requires c < |s.consoles|
    ensures var t := Defer(s, c, e);
      && t.cap == s.cap && t.fan == s.fan && t.fileRegistered == s.fileRegistered
      && t.fileTask == s.fileTask && t.fileQueue == s.fileQueue && t.stranded == s.stranded
      && |t.consoles| == |s.consoles| && (forall k | 0 <= k < |s.consoles| && k != c :: t.consoles[k] == s.consoles[k])
      && t.consoles[c] == s.consoles[c].(deferred := t.consoles[c].deferred)
  {
    var console := s.consoles[c];
    var d := if console.deferred.Some? then console.deferred.value else [];
    if !(|d| < s.cap || d == []) && d[0].Msg? {
      ReleaseFrame(Put(s, c, console.(deferred := Some(d[1..] + [e]))), d[0].msg);
    }
  }

  /** What the steps that may defer a message leave alone. */
  lemma DeferringFrame(s: State, a: Action)
    requires Enabled(s, a) && (a.DeferSend? || a.FlushReceive?)
    ensures var t := Next(s, a);
      && t.cap == s.cap && t.fan == s.fan && t.fileRegistered == s.fileRegistered
      && t.fileTask == s.fileTask && t.fileQueue == s.fileQueue && t.stranded == s.stranded
      && |t.consoles| == |s.consoles| && (forall k | 0 <= k < |s.consoles| && k != a.c :: t.consoles[k] == s.consoles[k])
      && t.consoles[a.c].(deferred := None, sending := None, flush := NoFlush)
         == s.consoles[a.c].(deferred := None, sending := None, flush := NoFlush)
  {
    var console := s.consoles[a.c];
    if a.DeferSend? {
      DeferFrame(Put(s, a.c, console.(sending := None)), a.c, Msg(console.sending.value));
    } else {
      var q := console.deferred.value;
      if q[0].Msg? && console.insert { DeferFrame(Put(s, a.c, console.(deferred := Some(q[1..]))), a.c, q[0]); }
    }
  }

  lemma DeferringTidy(s: State, a: Action)
    requires Tidy(s) && Enabled(s, a) && (a.DeferSend? || a.FlushReceive?)
    ensures Tidy(Next(s, a))
  {
    var console := s.consoles[a.c];
    assert FlushTidy(console);
    DeferringFrame(s, a);
    if a.DeferSend? {
      DeferFrame(Put(s, a.c, console.(sending := None)), a.c, Msg(console.sending.value));
    }
  }

  lemma ReceiveTidy(s: State, a: Action)
    requires Tidy(s) && Enabled(s, a) && a.Receive?
    ensures Tidy(Next(s, a))
  {
    assert FlushTidy(s.consoles[a.c]);
  }

  lemma ReleaseStepTidy(s: State, a: Action)
    requires Tidy(s) && Enabled(s, a) && (a.Display? || a.FlushDisplay? || a.Drop?)
    ensures Tidy(Next(s, a))
  {
    var console := s.consoles[a.c];
    assert FlushTidy(console);
    if a.Display? {
      ReleaseFrame(Put(s, a.c, console.(hand := None)), console.hand.value);
    } else if a.FlushDisplay? {
      ReleaseFrame(Put(s, a.c, console.(flush := Polling)), console.flush.msg);
    } else if console.life.held[0].Msg? {
      ReleaseFrame(Put(s, a.c, console.(life := Draining(console.life.held[1..], console.life.last))),
                   console.life.held[0].msg);
    }
  }

  lemma ConsoleStepTidy(s: State, a: Action)
    requires Tidy(s) && Enabled(s, a) && Orderly(s, a)
    requires a.Input? || a.TakeInput? || a.GiveInput? || a.Close? || a.Deregister? || a.Detach? || a.Drained?
    ensures Tidy(Next(s, a))
  {
    assert FlushTidy(s.consoles[a.c]);
  }

  lemma FlushStepTidy(s: State, a: Action)
    requires Tidy(s) && Enabled(s, a) && Orderly(s, a) && (a.FlushBegin? || a.FlushEmpty? || a.FlushDelete?)
    ensures Tidy(Next(s, a))
  {
    assert FlushTidy(s.consoles[a.c]);
  }

  lemma HandOverTidy(s: State)
    requires Tidy(s) && Enabled(s, HandOver)
    ensures Tidy(Next(s, HandOver))
  {
    assert forall r | r in s.fan.left[1..] :: r in s.fan.left;
    assert s.fan.left[0] in s.fan.left;
    ReleaseFrame(s.(fan := Fan(s.fan.msg, s.fan.left[1..])), s.fan.msg);
    if s.fan.left[0].ToConsole? && s.fan.left[0].id < |s.consoles| {
      assert FlushTidy(s.consoles[s.fan.left[0].id]);
    }
  }

  lemma FileStepTidy(s: State, a: Action)
    requires Tidy(s) && Enabled(s, a) && Orderly(s, a)
    requires a.FileReceive? || a.FileWrite? || a.FileDrop? || a.FileEmpty? || a.FileDelete?
          || a.StartFile? || a.StopFile? || a.SendExit?
    ensures Tidy(Next(s, a))
  {
    if a.FileReceive? || a.FileDrop? {
      var q := s.fileQueue.value;
      assert q[0] in q && forall e | e in q[1..] :: e in q;
      if a.FileDrop? && q[0].Msg? { ReleaseFrame(s.(fileQueue := Some(q[1..])), q[0].msg); }
    } else if a.FileWrite? {
      ReleaseFrame(s.(fileTask := Running), s.fileTask.msg);
    }
  }

  lemma FanStepTidy(s: State, a: Action)
    requires Tidy(s) && Enabled(s, a) && (a.OpenConsole? || a.LogBegin? || a.LogEnd?)
    ensures Tidy(Next(s, a))
  {
  }

  lemma StepStaysTidy(s: State, a: Action)
    requires Tidy(s) && Enabled(s, a) && Orderly(s, a)
    ensures Tidy(Next(s, a))
  {
    match a
    case Receive(_) => ReceiveTidy(s, a);
    case DeferSend(_) | FlushReceive(_) => DeferringTidy(s, a);
    case Display(_) | FlushDisplay(_) | Drop(_) => ReleaseStepTidy(s, a);
    case HandOver => HandOverTidy(s);
    case FileReceive | FileWrite(_) | FileDrop | FileEmpty | FileDelete | StartFile | StopFile | SendExit =>
      FileStepTidy(s, a);
    case OpenConsole(_) | LogBegin(_) | LogEnd => FanStepTidy(s, a);
    case FlushBegin(_) | FlushEmpty(_) | FlushDelete(_) => FlushStepTidy(s, a);
    case _ => ConsoleStepTidy(s, a);
  }

  /** Where the orderly rules are kept, no reference is ever lost. */
  lemma {:induction false} OrderlyRunsStrandNothing(s: State, acts: seq<Action>, k: nat)
    requires Tidy(s) && IsOrderlyRun(s, acts)
    ensures IsRun(s, acts) && Tidy(Run(s, acts)) && Occ(Run(s, acts).stranded, k) == 0
    decreases |acts|
  {
    if acts == [] {
      NoMsgNoOcc(s.stranded, k);
    } else {
      StepStaysTidy(s, acts[0]);
      OrderlyRunsStrandNothing(Next(s, acts[0]), acts[1..], k);
    }
  }

  /** So a message issued to at least one receiver is freed as soon as the last
      reference to it goes. */
  lemma OrderlyRunsLeakNothing(cap: nat, acts: seq<Action>, m: nat)
    requires cap > 0 && IsOrderlyRun(Init(cap), acts)
    ensures IsRun(Init(cap), acts)
    ensures var s := Run(Init(cap), acts);
      m < s.nextMsg && m !in s.unheard ==> (m in s.freed <==> References(s, m) == 0)
  {
    OrderlyRunsStrandNothing(Init(cap), acts, m);
    FreedIffUnreferenced(cap, acts, m);
  }

  /** A reference lost with a queue keeps its message alive for ever. */
  lemma {:induction false} StrandedIsForever(s: State, acts: seq<Action>, m: nat)
    requires Inv(s) && IsRun(s, acts) && Occ(s.stranded, m) > 0
    ensures m !in Run(s, acts).freed
    decreases |acts|
  {
    assert Count(s, m) == References(s, m) + Occ(s.stranded, m);
    if acts != [] {
      StepKeepsInv(s, acts[0]);
      StrandedGrows(s, acts[0], m);
      StrandedIsForever(Next(s, acts[0]), acts[1..], m);
    }
  }

  lemma OtherStepKeepsStranded(s: State, a: Action)
    requires Enabled(s, a) && !a.FlushDelete? && !a.FileDelete? && !a.DeferSend? && !a.FlushReceive?
    ensures Next(s, a).stranded == s.stranded
  {
    if a.HandOver? || a.Display? || a.FlushDisplay? || a.Drop? || a.FileWrite? || a.FileDrop? {
      ReleasingKeepsStranded(s, a);
    }
  }

  lemma ReleasingKeepsStranded(s: State, a: Action)
    requires Enabled(s, a)
    requires a.HandOver? || a.Display? || a.FlushDisplay? || a.Drop? || a.FileWrite? || a.FileDrop?
    ensures Next(s, a).stranded == s.stranded
  {
  }

  lemma StrandedGrows(s: State, a: Action, m: nat)
    requires Enabled(s, a)
    ensures Occ(Next(s, a).stranded, m) >= Occ(s.stranded, m)
  {
    match a
    case FlushDelete(c) => OccAppend(s.stranded, s.consoles[c].deferred.value, m);
    case FileDelete => OccAppend(s.stranded, s.fileQueue.value, m);
    case DeferSend(_) | FlushReceive(_) => DeferringFrame(s, a);
    case _ => OtherStepKeepsStranded(s, a);
  }

  /** The rule for the file task is needed.  When it ends by itself after a write
      error it is still registered, and a message logged between its last look at
      the queue and the deletion of the queue is never freed. */
  lemma SelfExitCanStrand(s: State, rest: seq<Receiver>) returns (acts: seq<Action>)
    requires Inv(s) && s.fileTask.Ending? && s.fileRegistered && s.fan.NoFan?
    requires s.fileQueue.Some? && |s.fileQueue.value| < s.cap
    requires Enabled(s, LogBegin([ToFile] + rest))
    ensures IsRun(s, acts) && Inv(Run(s, acts))
    ensures s.nextMsg < Run(s, acts).nextMsg && Occ(Run(s, acts).stranded, s.nextMsg) > 0
    ensures forall more | IsRun(Run(s, acts), more) :: s.nextMsg !in Run(Run(s, acts), more).freed
  {
    var m := s.nextMsg;
    var s1 := Next(s, LogBegin([ToFile] + rest));
    var s2 := Next(s1, HandOver);
    var s3 := Next(s2, FileDelete);
    StepKeepsInv(s, LogBegin([ToFile] + rest));
    StepKeepsInv(s1, HandOver);
    StepKeepsInv(s2, FileDelete);
    OccPush(s.fileQueue.value, Msg(m));
    OccAppend(s.stranded, s2.fileQueue.value, m);
    acts := [LogBegin([ToFile] + rest), HandOver, FileDelete];
    assert acts[1..] == [HandOver, FileDelete] && acts[1..][1..] == [FileDelete];
    assert IsRun(s2, [FileDelete]) && Run(s2, [FileDelete]) == s3;
    assert IsRun(s1, acts[1..]) && Run(s1, acts[1..]) == s3;
    forall more | IsRun(s3, more) ensures m !in Run(s3, more).freed {
      StrandedIsForever(s3, more, m);
    }
  }
}
