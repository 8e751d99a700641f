/**
 What the follow-task protocol guarantees: memory safety of every interleaving but
 for three unlocked accesses, no wait under the Mongoose lock, one deletion per
 console, and progress once a stop has been requested.
 */
module ConsoleTeardown {
  import opened Common
  import opened FollowTask

  // ------------------------------------------------------------------ runs

  /** Can a run that obeys the rule lead from `s` to `t`? */
  ghost predicate Leads(s: State, t: State) {
    exists acts :: IsRuledRun(s, acts) && IsRun(s, acts) && Run(s, acts) == t
  }

  lemma LeadsNowhere(s: State)
    ensures Leads(s, s)
  {
    assert IsRuledRun(s, []) && IsRun(s, []) && Run(s, []) == s;
  }

  lemma LeadsFirst(s: State, a: Action, t: State)
    requires Enabled(s, a) && Allowed(s, a) && Leads(Next(s, a), t)
    ensures Leads(s, t)
  {
    var acts :| IsRuledRun(Next(s, a), acts) && IsRun(Next(s, a), acts) && Run(Next(s, a), acts) == t;
    var all := [a] + acts;
    assert all[0] == a && all[1..] == acts;
    assert IsRuledRun(s, all) && IsRun(s, all) && Run(s, all) == t;
  }

  lemma LeadsByOne(s: State, a: Action)
    requires Enabled(s, a) && Allowed(s, a)
    ensures Leads(s, Next(s, a))
  {
    LeadsNowhere(Next(s, a));
    LeadsFirst(s, a, Next(s, a));
  }

  lemma LeadsOn(s: State, t: State, u: State)
    requires Leads(s, t) && Leads(t, u)
    ensures Leads(s, u)
  {
    var acts :| IsRuledRun(s, acts) && IsRun(s, acts) && Run(s, acts) == t;
    LeadsAlong(s, acts, u);
  }

  lemma {:induction false} LeadsAlong(s: State, acts: seq<Action>, u: State)
    requires IsRuledRun(s, acts) && IsRun(s, acts) && Leads(Run(s, acts), u)
    ensures Leads(s, u)
    decreases |acts|
  {
    if acts != [] {
      LeadsAlong(Next(s, acts[0]), acts[1..], u);
      LeadsFirst(s, acts[0], u);
    }
  }

  lemma LeadsKeepsInv(s: State, t: State)
    requires Inv(s) && Leads(s, t)
    ensures Inv(t)
  {
    var acts :| IsRuledRun(s, acts) && IsRun(s, acts) && Run(s, acts) == t;
    RunKeepsInv(s, acts);
  }

  // ---------------------------------------------------------------- safety

  /** The object that an access made outside both locks may find gone: the connection
      whose flags are read, the handler called for a typed character, and the task
      that this handler was registered for. */
  ghost predicate Unlocked(s: State, a: Action, o: Obj)
    requires Enabled(s, a)
  {
    || (ReadsFlags(s, a) && o == TheConnection)
    || (a.FetchHandler? && o == TheHandler)
    || (a.StoreStop? && o.TheTask?)
  }

  /** Apart from those, a step touches only live objects. */
  ghost predicate Sound(s: State, a: Action)
    requires Enabled(s, a)
  {
    forall o | o in Touches(s, a) :: Live(s, o) || Unlocked(s, a, o)
  }

  lemma StepIsSound(s: State, a: Action)
    requires Inv(s) && Enabled(s, a)
    ensures Sound(s, a)
    ensures ReadsFlags(s, a) ==> (Safe(s, a) <==> s.connLive)
    ensures a.FetchHandler? ==> (Safe(s, a) <==> s.insert.Terminator?)
    ensures a.StoreStop? ==> (Safe(s, a) <==> s.server.data.Some? && s.server.data.value in s.tasks)
  {
    if a.FetchHandler? { assert TheHandler in Touches(s, a); }
    if a.StoreStop? { assert TheTask(if s.server.data.Some? then s.server.data.value else s.nextId) in Touches(s, a); }
    assert s.nextId in s.tasks ==> TaskInv(s, s.nextId);
    if a.TaskStep? {
      assert TaskInv(s, a.id);
      if ReadsFlags(s, a) {
        assert TheConnection in Touches(s, a);
      }
    }
  }

  /** A state that some run obeying the rule reaches. */
  ghost predicate Reachable(mode: Mode, s: State) {
    Leads(Init(mode), s)
  }

  lemma ReachableInv(mode: Mode, s: State)
    requires Reachable(mode, s)
    ensures Inv(s) && s.mode == mode
  {
    var acts :| IsRuledRun(Init(mode), acts) && IsRun(Init(mode), acts) && Run(Init(mode), acts) == s;
    RunKeepsInv(Init(mode), acts);
    ModeIsFixed(Init(mode), acts);
  }

  lemma {:induction false} ModeIsFixed(s: State, acts: seq<Action>)
    requires IsRun(s, acts)
    ensures Run(s, acts).mode == s.mode
    decreases |acts|
  {
    if acts != [] {
      ModeIsFixed(Next(s, acts[0]), acts[1..]);
    }
  }

  /** In every reachable state, whatever step comes next dereferences no freed
      task, no freed writer and no freed connection, and calls no handler that has
      gone, except for three accesses made without a lock: the read of the flags, and
      the call and the store that deliver a typed character.  `FlagsReadIff` and
      `InputIsLateIff` say when these can go wrong. */
  lemma EveryStepIsSound(mode: Mode, s: State, a: Action)
    requires Reachable(mode, s) && Enabled(s, a)
    ensures Sound(s, a)
    ensures !ReadsFlags(s, a) && !Delivers(a) ==> Safe(s, a)
  {
    ReachableInv(mode, s);
    StepIsSound(s, a);
  }

  /** A registered termination handler names a live task, and a freed writer has
      no task that will still use it. */
  lemma RegistrationMeansLive(mode: Mode, s: State)
    requires Reachable(mode, s)
    ensures s.sentinel == Follow ==> s.termData.Some? && s.termData.value in s.tasks
    ensures s.sentinel == Other ==> s.insert == OtherInsert
    ensures s.server.Gone? ==> s.sentinel == Null
    ensures !s.writerLive ==> forall id | id in s.tasks :: !Bound(s.tasks[id].pc)
  {
    ReachableInv(mode, s);
    forall id | id in s.tasks && !s.writerLive ensures !Bound(s.tasks[id].pc) {
      assert TaskInv(s, id);
    }
  }

  /** The thread that closes a Mongoose connection never waits for the task: inside
      a destructor its next step is always possible. */
  lemma MongooseThreadNeverWaits(s: State)
    requires Reachable(Mongoose, s) && s.server.Round?
    ensures s.server.step != WaitTask && Enabled(s, RoundStep)
  {
    ReachableInv(Mongoose, s);
  }

  /** A console is deleted at most once.  A Mongoose console is deleted by its
      closing handler when `CloseConsole` said no; otherwise it stays on
      `m_reaping`, once, until it is deleted from there. */
  lemma DeletedOnce(mode: Mode, s: State)
    requires Reachable(mode, s)
    ensures s.frees == (if s.server.Gone? then 1 else 0)
    ensures s.deferred == Some(false) ==> s.reaping == 0
    ensures s.deferred == Some(true) ==> s.reaping == 1 - s.frees
    ensures mode == Mongoose && s.frees == 1 ==> s.deferred.Some?
  {
    ReachableInv(mode, s);
  }

  // -------------------------------------------------------------- progress

  function WriteRank(w: WriteStep): nat {
    match w case Test => 4 case Flags => 3 case Take => 2 case Send => 1
  }

  /** How far a task that has been asked to stop is from having freed itself. */
  function Rank(pc: Pc): (nat, nat) {
    match pc
    case Created => (10, 0)
    case Serving => (9, 0)
    case Writing(Output, w) => (8, WriteRank(w))
    case Writing(FileLost, w) => (8, WriteRank(w))
    case Checking => (7, 0)
    case Exiting => (6, 0)
    case Writing(Caret, w) => (5, WriteRank(w))
    case Unhooking => (4, 0)
    case Flushing(left) => (3, 5 * left)
    case Writing(Flush(left), w) => (3, 5 * left + WriteRank(w))
    case Deregistering => (2, 0)
    case FreeingArgs => (1, 0)
  }

  predicate Below(r: (nat, nat), q: (nat, nat)) {
    r.0 < q.0 || (r.0 == q.0 && r.1 < q.1)
  }

  lemma PcRankFalls(pc: Pc, closing: bool, hooked: bool, c: Choice)
    requires pc != Created && pc != FreeingArgs
    ensures Below(Rank(PcAfter(pc, closing, true, hooked, c)), Rank(pc))
  {
  }

  /** Once a stop is requested, each of the task's own steps brings it closer to
      its end. */
  lemma StopRankFalls(s: State, id: nat, c: Choice)
    requires Inv(s) && TaskEnabled(s, id) && s.tasks[id].stop
    ensures var s' := Next(s, TaskStep(id, c));
      id in s'.tasks ==> s'.tasks[id].stop && Below(Rank(s'.tasks[id].pc), Rank(s.tasks[id].pc))
  {
    if s.tasks[id].pc != FreeingArgs {
      PcRankFalls(s.tasks[id].pc, s.closing, s.insert.Terminator?, c);
    }
  }

  /** No step of another thread moves a task that is running, or revokes a stop. */
  lemma OthersLeaveTaskAlone(s: State, a: Action, id: nat)
    requires Inv(s) && Enabled(s, a) && id in s.tasks && s.tasks[id].pc != Created
    requires !(a.TaskStep? && a.id == id)
    ensures var s' := Next(s, a);
      && id in s'.tasks && s'.tasks[id].pc == s.tasks[id].pc
      && (s.tasks[id].stop ==> s'.tasks[id].stop)
  {
    assert TaskInv(s, id);
  }

  /** The next step of a stopping task is possible unless another party holds the
      Mongoose lock. */
  lemma StoppingTaskCanStep(s: State, id: nat)
    requires Inv(s) && id in s.tasks && s.tasks[id].pc != Created
    ensures TaskEnabled(s, id) || (s.lock != Free && s.lock != ByTask(id))
  {
    assert TaskInv(s, id);
  }

  /** What one step of a task leaves alone. */
  lemma TaskStepFrame(s: State, id: nat, c: Choice)
    requires TaskEnabled(s, id) && s.tasks[id].pc != FreeingArgs
    ensures var t := Next(s, TaskStep(id, c)); var pc := s.tasks[id].pc;
      && t.server == s.server && t.mode == s.mode && t.deferred == s.deferred && t.nextId == s.nextId
      && t.closing == s.closing
      && t.tasks == s.tasks[id := s.tasks[id].(pc := PcAfter(pc, s.closing, s.tasks[id].stop, s.insert.Terminator?, c))]
      && t.lock == (if pc.Writing? && pc.step == Take then ByTask(id)
                    else if pc.Writing? && pc.step == Send then Free else s.lock)
      && t.sentinel == (if pc == Deregistering && s.sentinel == Follow then Null else s.sentinel)
  {
  }

  /** One step of a stopping task with the Mongoose lock within its reach. */
  lemma StoppingStep(s: State, id: nat) returns (t: State)
    requires Inv(s) && id in s.tasks && s.tasks[id].stop && Bound(s.tasks[id].pc)
    requires s.lock == Free || s.lock == ByTask(id)
    ensures Leads(s, t) && Inv(t)
    ensures t.server == s.server && t.mode == s.mode && t.deferred == s.deferred && t.nextId == s.nextId
    ensures t.closing == s.closing && id in t.tasks && t.tasks[id].stop
    ensures if s.tasks[id].pc == Deregistering then t.sentinel == Null && t.lock == Free
            else Bound(t.tasks[id].pc) && (t.lock == Free || t.lock == ByTask(id))
    ensures Below(Rank(t.tasks[id].pc), Rank(s.tasks[id].pc))
    ensures forall k | k in s.tasks && k != id :: k in t.tasks && t.tasks[k] == s.tasks[k]
  {
    assert TaskInv(s, id);
    var a := TaskStep(id, Choice(false, false, false, false, 0));
    t := Next(s, a);
    TaskStepFrame(s, id, a.c);
    PcRankFalls(s.tasks[id].pc, s.closing, s.insert.Terminator?, a.c);
    assert Inv(t) by { StepKeepsInv(s, a); }
    LeadsByOne(s, a);
  }

  /** A stopping task runs to the end of its deregistration by itself, touching
      nothing of the console thread's state. */
  lemma {:induction false} StoppingTaskFinishes(s: State, id: nat) returns (t: State)
    requires Inv(s) && id in s.tasks && s.tasks[id].stop && Bound(s.tasks[id].pc)
    requires s.lock == Free || s.lock == ByTask(id)
    ensures Leads(s, t) && Inv(t)
    ensures t.server == s.server && t.mode == s.mode && t.deferred == s.deferred && t.nextId == s.nextId
    ensures t.sentinel == Null && t.lock == Free && t.closing == s.closing
    ensures forall k | k in s.tasks && k != id :: k in t.tasks && t.tasks[k] == s.tasks[k]
    decreases Rank(s.tasks[id].pc).0, Rank(s.tasks[id].pc).1
  {
    t := StoppingStep(s, id);
    if s.tasks[id].pc != Deregistering {
      var u := StoppingTaskFinishes(t, id);
      LeadsOn(s, t, u);
      t := u;
    }
  }

  /** The destructors' three rounds end the console once no task is registered. */
  lemma {:induction false} RoundsEnd(s: State) returns (t: State)
    requires s.server.Round? && s.server.step == ReadHandler && s.sentinel == Null && ServerMay(s)
    ensures Leads(s, t) && (Inv(s) ==> Inv(t))
    ensures t.server.Gone? && !t.writerLive && t.tasks == s.tasks && t.lock == s.lock && t.mode == s.mode
    decreases s.server.left
  {
    if Inv(s) { StepKeepsInv(s, RoundStep); }
    var s1 := Next(s, RoundStep);
    if s.server.left > 1 {
      t := RoundsEnd(s1);
      LeadsFirst(s, RoundStep, t);
    } else {
      LeadsByOne(s, RoundStep);
      t := s1;
    }
  }

  /** From a deferred console whose task has gone, one poll deletes it. */
  lemma NextPollReaps(s: State) returns (t: State)
    requires Inv(s) && s.server.Detached? && s.sentinel == Null && s.lock == Free
    ensures Leads(s, t) && Inv(t) && t.server.Gone? && t.tasks == s.tasks && t.lock == Server && t.mode == s.mode
  {
    var s1 := Next(s, LockTaken);
    StepKeepsInv(s, LockTaken);
    var s2 := Next(s1, ReapConsoles);
    StepKeepsInv(s1, ReapConsoles);
    t := RoundsEnd(s2);
    LeadsFirst(s1, ReapConsoles, t);
    LeadsFirst(s, LockTaken, t);
  }

  /** Whatever has happened before, a console left to the reaper can always still
      be deleted: the task needs only its own steps to finish, and the next poll
      deletes the console. */
  lemma DeferredConsoleIsReaped(s: State) returns (t: State)
    requires Reachable(Mongoose, s) && s.server.Detached?
    ensures Leads(s, t) && t.server.Gone? && t.frees == 1 && t.reaping == 0
  {
    ReachableInv(Mongoose, s);
    var s1 := UnlockForTask(s);
    var s2 := s1;
    if s1.sentinel == Follow {
      assert TaskInv(s1, s1.termData.value);
      assert Bound(s1.tasks[s1.termData.value].pc);
      s2 := StoppingTaskFinishes(s1, s1.termData.value);
      LeadsOn(s, s1, s2);
    }
    t := NextPollReaps(s2);
    LeadsOn(s, s2, t);
  }

  /** The server's handler and other parties give the Mongoose lock back. */
  lemma UnlockForTask(s: State) returns (t: State)
    requires Inv(s) && s.server.Detached?
    ensures Leads(s, t) && Inv(t) && t.server.Detached?
    ensures t.lock == Free || (t.lock.ByTask? && t.sentinel == Follow && t.termData == Some(t.lock.id))
  {
    t := s;
    LeadsNowhere(s);
    if s.lock == Server {
      t := Next(s, LockReleased);
      StepKeepsInv(s, LockReleased);
      LeadsByOne(s, LockReleased);
    } else if s.lock == Elsewhere {
      t := Next(s, OthersUnlock);
      StepKeepsInv(s, OthersUnlock);
      LeadsByOne(s, OthersUnlock);
    } else if s.lock.ByTask? {
      assert TaskInv(s, s.lock.id);
    }
  }

  // ------------------------------------------------- what the guards are for

  /** Some run that obeys the rule reaches a step that touches a freed object. */
  ghost predicate Doomed(s: State) {
    exists t, a :: Leads(s, t) && Enabled(t, a) && !Sound(t, a)
  }

  /** A task that is past its unhooking, so that the console accepts commands
      again, but still registered. */
  ghost predicate Straggler(s: State, id: nat) {
    id in s.tasks && Bound(s.tasks[id].pc) && !Hooked(s.tasks[id].pc)
  }

  /** A Ctrl-C typed with nothing in between. */
  lemma CtrlCTyped(s: State, id: nat) returns (t: State)
    requires ServerMay(s) && s.server.Idle? && s.insert == Terminator(id) && id in s.tasks
    ensures Leads(s, t) && t == s.(tasks := s.tasks[id := s.tasks[id].(stop := true)])
  {
    var s1 := Next(s, TestInsert);
    var s2 := Next(s1, FetchHandler);
    var s3 := Next(s2, FetchData);
    t := Next(s3, StoreStop);
    LeadsByOne(s3, StoreStop);
    LeadsFirst(s2, FetchData, t);
    LeadsFirst(s1, FetchHandler, t);
    LeadsFirst(s, TestInsert, t);
  }

  /** A command started beside a straggler takes over the registration. */
  lemma NewcomerTakesOver(s: State, elder: nat) returns (t: State)
    requires Inv(s) && Enabled(s, StartCommand) && s.sentinel == Follow && s.termData == Some(elder)
    ensures Straggler(s, elder)
    ensures Leads(Next(s, StartCommand), t)
    ensures t.server.Idle? && t.sentinel == Follow && !t.closing && t.mode == s.mode && t.lock == s.lock
    ensures s.nextId in t.tasks && t.tasks[s.nextId] == Task(Serving, true) && s.nextId != elder
    ensures elder in t.tasks && t.tasks[elder] == s.tasks[elder]
  {
    assert TaskInv(s, elder);
    var s1 := Next(s, StartCommand);
    var s2 := Next(s1, StoreData);
    var s3 := Next(s2, StoreSentinel);
    var s4 := Next(s3, Instantiate(true));
    t := CtrlCTyped(s4, s.nextId);
    LeadsFirst(s3, Instantiate(true), t);
    LeadsFirst(s2, StoreSentinel, t);
    LeadsFirst(s1, StoreData, t);
  }

  /** The newcomer finishes, clearing the registration they share. */
  lemma {:induction false} NewcomerFinishes(s: State, id: nat) returns (t: State)
    requires id in s.tasks && s.tasks[id].stop && Bound(s.tasks[id].pc) && s.sentinel == Follow
    requires s.tasks[id].pc.Writing? ==> s.tasks[id].pc.step != Take && s.tasks[id].pc.step != Send
    ensures Leads(s, t) && t.server == s.server && t.mode == s.mode && t.lock == s.lock
    ensures t.sentinel == Null
    ensures forall k | k in s.tasks && k != id :: k in t.tasks && t.tasks[k] == s.tasks[k]
    decreases Rank(s.tasks[id].pc).0, Rank(s.tasks[id].pc).1
  {
    var a := TaskStep(id, Choice(false, false, false, false, 0));
    var s1 := Next(s, a);
    TaskStepFrame(s, id, a.c);
    if s.tasks[id].pc == Deregistering {
      LeadsByOne(s, a);
      t := s1;
    } else {
      PcRankFalls(s.tasks[id].pc, s.closing, s.insert.Terminator?, a.c);
      t := NewcomerFinishes(s1, id);
      LeadsFirst(s, a, t);
    }
  }

  /** With the registration gone, the console is deleted under the straggler. */
  lemma ConsoleGoesFirst(s: State) returns (t: State)
    requires s.server.Idle? && s.sentinel == Null && ServerMay(s)
    ensures Leads(s, t) && t.server.Gone? && !t.writerLive && t.tasks == s.tasks && t.mode == s.mode
    ensures t.lock == if s.lock == Server then Free else s.lock
  {
    var a := if s.mode == Direct then Teardown else CloseConsole;
    var s1 := Next(s, a);
    var s2 := RoundsEnd(s1);
    LeadsFirst(s, a, s2);
    t := s2;
    if s2.lock == Server {
      t := Next(s2, LockReleased);
      LeadsByOne(s2, LockReleased);
      LeadsOn(s, s2, t);
    }
  }

  lemma StartBesideStragglerIsDoomed(s: State)
    requires Inv(s) && Enabled(s, StartCommand) && s.sentinel == Follow
    ensures Doomed(Next(s, StartCommand))
  {
    var s1 := Next(s, StartCommand);
    var id := s.termData.value;
    assert TaskInv(s, id);
    var s2 := NewcomerTakesOver(s, id);
    var s3 := NewcomerFinishes(s2, s.nextId);
    var s4 := ConsoleGoesFirst(s3);
    LeadsOn(s1, s2, s3);
    LeadsOn(s1, s3, s4);
    if s.lock.ByTask? { assert TaskInv(s, s.lock.id); }
    var a := TaskStep(id, Choice(false, false, false, false, 0));
    assert Enabled(s4, a) && TheWriter in Touches(s4, a);
  }

  /** Why the registration rule is needed, and that it is enough.  The input
      callback alone admits a command while the previous task has unhooked itself
      but not yet deregistered; starting there is unsafe exactly because a
      follow-mode task is still registered. */
  lemma StartIsSafeIffUnregistered(s: State)
    requires Inv(s) && Enabled(s, StartCommand)
    ensures Doomed(Next(s, StartCommand)) <==> s.sentinel == Follow
  {
    if s.sentinel == Follow {
      StartBesideStragglerIsDoomed(s);
    } else {
      var s1 := Next(s, StartCommand);
      StepKeepsInv(s, StartCommand);
      forall t, a | Leads(s1, t) && Enabled(t, a) ensures Sound(t, a) {
        LeadsKeepsInv(s1, t);
        StepIsSound(t, a);
      }
    }
  }

  /** The server closes the connection of a console with a registered task. */
  lemma CloseCompletes(s: State) returns (t: State)
    requires s.mode == Mongoose && s.server.Idle? && s.lock == Free && s.sentinel == Follow
    ensures Leads(s, t) && t.closing && !t.connLive && t.tasks.Keys >= s.tasks.Keys
    ensures forall id | id in s.tasks :: t.tasks[id].pc == s.tasks[id].pc
  {
    var s1 := Next(s, LockTaken);
    var s2 := Next(s1, CloseConsole);
    var s3 := Next(s2, MarkClosing);
    t := Next(s3, CloseReturns);
    LeadsByOne(s3, CloseReturns);
    LeadsFirst(s2, MarkClosing, t);
    LeadsFirst(s1, CloseConsole, t);
    LeadsFirst(s, LockTaken, t);
  }

  /** From any moment of a Mongoose console with a task about to read the flags, the
      connection can be closed before the task moves on. */
  lemma CloseComesFirst(s: State, id: nat) returns (t: State)
    requires Inv(s) && s.mode == Mongoose && id in s.tasks
    requires s.tasks[id].pc.Writing? && s.tasks[id].pc.step == Flags
    ensures Leads(s, t) && !t.connLive && id in t.tasks && t.tasks[id].pc == s.tasks[id].pc
    decreases if s.server.Idle? then 0 else 1
  {
    assert TaskInv(s, id);
    t := s;
    LeadsNowhere(s);
    if s.server.Idle? {
      t := LockComesFree(s, id);
      var u := CloseCompletes(t);
      LeadsOn(s, t, u);
      t := u;
    } else if s.server.Closing? {
      var s1 := Next(s, MarkClosing);
      t := Next(s1, CloseReturns);
      LeadsByOne(s1, CloseReturns);
      LeadsFirst(s, MarkClosing, t);
    } else if s.server.Marked? {
      t := Next(s, CloseReturns);
      LeadsByOne(s, CloseReturns);
    } else if s.server.Typing? || s.server.Calling? || s.server.Delivering? {
      t := InputEnds(s, id);
      var u := CloseComesFirst(t, id);
      LeadsOn(s, t, u);
      t := u;
    }
  }

  /** What is typed is delivered, one way or another. */
  lemma {:induction false} InputEnds(s: State, id: nat) returns (t: State)
    requires Inv(s) && id in s.tasks && s.tasks[id].pc != Created && ServerMay(s)
    requires s.server.Typing? || s.server.Calling? || s.server.Delivering? || s.server.Idle?
    ensures Leads(s, t) && Inv(t) && t.server.Idle? && t.mode == s.mode
    ensures id in t.tasks && t.tasks[id].pc == s.tasks[id].pc
    decreases match s.server case Typing => 3 case Calling => 2 case Delivering(_) => 1 case _ => 0
  {
    if s.server.Idle? {
      t := s;
      LeadsNowhere(s);
    } else {
      var a := if s.server.Typing? then FetchHandler else if s.server.Calling? then FetchData else StoreStop;
      StepKeepsInv(s, a);
      OthersLeaveTaskAlone(s, a, id);
      t := InputEnds(Next(s, a), id);
      LeadsFirst(s, a, t);
    }
  }

  /** Whoever holds the Mongoose lock beside an idle server can give it back. */
  lemma LockComesFree(s: State, id: nat) returns (t: State)
    requires Inv(s) && s.mode == Mongoose && s.server.Idle? && id in s.tasks
    requires s.tasks[id].pc.Writing? && s.tasks[id].pc.step == Flags
    ensures Leads(s, t) && t == s.(lock := Free)
  {
    assert TaskInv(s, id);
    assert forall k | k in s.tasks :: TaskInv(s, k);
    assert s.lock != ByTask(id) && !s.lock.ByTask?;
    t := s.(lock := Free);
    if s.lock == Server {
      LeadsByOne(s, LockReleased);
    } else if s.lock == Elsewhere {
      LeadsByOne(s, OthersUnlock);
    } else {
      LeadsNowhere(s);
    }
  }

  /** Some orderly run makes the task's next step touch a freed object. */
  ghost predicate CanComeLate(s: State, id: nat, c: Choice)
    requires id in s.tasks
  {
    exists t :: Leads(s, t) && Enabled(t, TaskStep(id, c)) && id in t.tasks && t.tasks[id].pc == s.tasks[id].pc
                && !Safe(t, TaskStep(id, c))
  }

  /** The exception for the flags read is needed exactly for consoles served over
      Mongoose: there the read can always come too late, and elsewhere never. */
  lemma FlagsReadIff(s: State, id: nat, c: Choice)
    requires Inv(s) && Enabled(s, TaskStep(id, c)) && ReadsFlags(s, TaskStep(id, c))
    ensures CanComeLate(s, id, c) <==> s.mode == Mongoose
  {
    if s.mode == Mongoose {
      var t := CloseComesFirst(s, id);
      assert TheConnection in Touches(t, TaskStep(id, c)) && !Live(t, TheConnection);
    }
    if CanComeLate(s, id, c) {
      var t :| Leads(s, t) && Enabled(t, TaskStep(id, c)) && id in t.tasks && t.tasks[id].pc == s.tasks[id].pc
               && !Safe(t, TaskStep(id, c));
      LeadsKeepsInv(s, t);
      LeadsKeepsMode(s, t);
      StepIsSound(t, TaskStep(id, c));
      assert TaskInv(t, id);
    }
  }

  lemma LeadsKeepsMode(s: State, t: State)
    requires Leads(s, t)
    ensures t.mode == s.mode
  {
    var acts :| IsRuledRun(s, acts) && IsRun(s, acts) && Run(s, acts) == t;
    ModeIsFixed(s, acts);
  }

  /** So a read that is safe now need not be when it is made. */
  lemma FlagsReadCanBeLate(s: State, id: nat, c: Choice) returns (t: State)
    requires Inv(s) && s.mode == Mongoose
    requires Enabled(s, TaskStep(id, c)) && ReadsFlags(s, TaskStep(id, c))
    ensures s.connLive ==> Safe(s, TaskStep(id, c))
    ensures Leads(s, t) && Enabled(t, TaskStep(id, c)) && id in t.tasks && t.tasks[id].pc == s.tasks[id].pc
    ensures !Safe(t, TaskStep(id, c))
  {
    FlagsReadIff(s, id, c);
    StepIsSound(s, TaskStep(id, c));
    t :| Leads(s, t) && Enabled(t, TaskStep(id, c)) && id in t.tasks && t.tasks[id].pc == s.tasks[id].pc
         && !Safe(t, TaskStep(id, c));
  }
}
