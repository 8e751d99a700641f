/**
 A character typed at a console with a follow-mode task.  The console thread tests
 `m_insert`, reads it again to call it, reads `m_userData`, and `Terminator` stores
 to the task found there, all without a lock; the task may end by itself meanwhile.
 */
module LateInput {
  import opened Common
  import opened FollowTask
  import opened ConsoleTeardown
  import opened TeardownRuns

  ghost predicate AtInput(s: State) {
    s.server.Typing? || s.server.Calling? || s.server.Delivering?
  }

  /** The task the character is for, if there still is one. */
  ghost function Target(s: State): (id: Option<nat>)
    requires AtInput(s)
    ensures id.Some? ==> id.value in s.tasks
  {
    if s.server.Delivering? then
      if s.server.data.Some? && s.server.data.value in s.tasks then s.server.data else None
    else if s.insert.Terminator? && s.insert.task in s.tasks then Some(s.insert.task)
    else None
  }

  /** Is the task held up by the Mongoose lock, which the console thread holds? */
  ghost predicate HeldUp(s: State, id: nat)
    requires id in s.tasks
  {
    s.mode == Mongoose && s.tasks[id].pc.Writing? && s.tasks[id].pc.step == Take
  }

  /** Some orderly run that has not yet finished this delivery makes its next access a
      call through NULL or a store to memory that is not the task's. */
  ghost predicate CanComeTooLate(s: State) {
    exists acts, a ::
      && IsRuledRun(s, acts) && IsRun(s, acts) && StoreStop !in acts
      && Delivers(a) && Enabled(Run(s, acts), a) && !Safe(Run(s, acts), a)
  }

  // ---------------------------------------------------- the task held up

  ghost predicate Waiting(s: State, id: nat) {
    && AtInput(s) && s.lock == Server && id in s.tasks && HeldUp(s, id)
    && (if s.server.Delivering? then s.server.data == Some(id) else s.insert == Terminator(id))
  }

  /** As long as the character is not delivered the task stays where it is. */
  lemma WaitingLasts(s: State, a: Action, id: nat)
    requires Inv(s) && Waiting(s, id) && Enabled(s, a) && a != StoreStop
    ensures Waiting(Next(s, a), id)
  {
    assert TaskInv(s, id);
    if a.TaskStep? {
      assert TaskInv(s, a.id);
      assert a.id != id;
    }
  }

  lemma {:induction false} WaitingIsSafe(s: State, acts: seq<Action>, id: nat)
    requires Inv(s) && Waiting(s, id) && IsRuledRun(s, acts) && StoreStop !in acts
    ensures IsRun(s, acts) && Inv(Run(s, acts)) && Waiting(Run(s, acts), id)
    decreases |acts|
  {
    if acts != [] {
      assert acts[0] in acts;
      StepKeepsInv(s, acts[0]);
      WaitingLasts(s, acts[0], id);
      WaitingIsSafe(Next(s, acts[0]), acts[1..], id);
    }
  }

  // ------------------------------------------------- the task that goes first

  /** How far a task that finds its file lost is from its end. */
  function EndRank(pc: Pc): (nat, nat) {
    match pc
    case Created => (13, 0)
    case Writing(Output, w) => (12, WriteRank(w))
    case Checking => (11, 0)
    case Serving => (10, 0)
    case Writing(FileLost, w) => (8, WriteRank(w))
    case _ => Rank(pc)
  }

  /** The file is lost, and the connection takes no more output. */
  const QUIT := Choice(false, true, false, false, 0)

  lemma EndRankFalls(pc: Pc, closing: bool, stop: bool, hooked: bool)
    requires pc != Created && pc != FreeingArgs
    ensures Below(EndRank(PcAfter(pc, closing, stop, hooked, QUIT)), EndRank(pc))
    ensures !(pc.Writing? && pc.step == Take) ==>
      var after := PcAfter(pc, closing, stop, hooked, QUIT); !(after.Writing? && (after.step == Take || after.step == Send))
  {
  }

  /** A task with nothing to hold it up. */
  ghost predicate MayEnd(s: State, id: nat) {
    && Inv(s) && AtInput(s) && id in s.tasks && !HeldUp(s, id)
  }

  lemma EndingStep(s: State, id: nat)
    requires MayEnd(s, id)
    ensures Enabled(s, TaskStep(id, QUIT))
    ensures var t := Next(s, TaskStep(id, QUIT));
      && Inv(t) && t.server == s.server && (t.insert == s.insert || t.insert.NoInsert?)
      && (if s.tasks[id].pc.FreeingArgs? then id !in t.tasks
          else MayEnd(t, id) && Below(EndRank(t.tasks[id].pc), EndRank(s.tasks[id].pc)))
  {
    assert TaskInv(s, id);
    assert forall k | k in s.tasks :: TaskInv(s, k);
    var a := TaskStep(id, QUIT);
    assert Enabled(s, a);
    StepKeepsInv(s, a);
    if !s.tasks[id].pc.FreeingArgs? {
      EndRankFalls(s.tasks[id].pc, s.closing, s.tasks[id].stop, s.insert.Terminator?);
      TaskStepFrame(s, id, QUIT);
    }
  }

  /** A task that is not held up ends by its own steps before the character is
      delivered. */
  lemma {:induction false} TaskEndsFirst(s: State, id: nat) returns (acts: seq<Action>)
    requires MayEnd(s, id)
    ensures IsRuledRun(s, acts) && IsRun(s, acts) && StoreStop !in acts
    ensures var t := Run(s, acts);
      Inv(t) && t.server == s.server && id !in t.tasks && (t.insert == s.insert || t.insert.NoInsert?)
    decreases if id in s.tasks then EndRank(s.tasks[id].pc).0 else 0, if id in s.tasks then EndRank(s.tasks[id].pc).1 else 0
  {
    var a := TaskStep(id, QUIT);
    EndingStep(s, id);
    var rest := [];
    if !s.tasks[id].pc.FreeingArgs? { rest := TaskEndsFirst(Next(s, a), id); }
    acts := [a] + rest;
    assert acts[1..] == rest;
  }

  // ---------------------------------------------------------- the condition

  lemma {:induction false} RunOn(s: State, acts: seq<Action>, a: Action)
    requires IsRuledRun(s, acts) && IsRun(s, acts) && Enabled(Run(s, acts), a) && Allowed(Run(s, acts), a)
    ensures IsRuledRun(s, acts + [a]) && IsRun(s, acts + [a]) && Run(s, acts + [a]) == Next(Run(s, acts), a)
    decreases |acts|
  {
    if acts == [] {
      assert acts + [a] == [a] && [a][1..] == [];
    } else {
      RunOn(Next(s, acts[0]), acts[1..], a);
      assert (acts + [a])[0] == acts[0] && (acts + [a])[1..] == acts[1..] + [a];
    }
  }

  lemma TooLateAfter(s: State, acts: seq<Action>, a: Action)
    requires IsRuledRun(s, acts) && IsRun(s, acts) && StoreStop !in acts
    requires Delivers(a) && Enabled(Run(s, acts), a) && !Safe(Run(s, acts), a)
    ensures CanComeTooLate(s)
  {
  }

  /** The accesses that find no task. */
  lemma NextFindsNone(s: State)
    requires Inv(s) && AtInput(s) && Target(s).None?
    ensures s.server.Typing? ==> Enabled(s, FetchHandler) && !Safe(s, FetchHandler)
    ensures s.server.Delivering? ==> Enabled(s, StoreStop) && !Safe(s, StoreStop)
    ensures s.server.Calling? ==>
      && Enabled(s, FetchData) && Allowed(s, FetchData)
      && Enabled(Next(s, FetchData), StoreStop) && !Safe(Next(s, FetchData), StoreStop)
  {
    if s.server.Typing? {
      StepIsSound(s, FetchHandler);
    } else if s.server.Calling? {
      StepKeepsInv(s, FetchData);
      StepIsSound(Next(s, FetchData), StoreStop);
    } else {
      StepIsSound(s, StoreStop);
    }
  }

  /** With its task gone the delivery goes wrong. */
  lemma GoneIsTooLate(s: State, acts: seq<Action>)
    requires IsRuledRun(s, acts) && IsRun(s, acts) && StoreStop !in acts
    requires var t := Run(s, acts); Inv(t) && AtInput(t) && Target(t).None?
    ensures CanComeTooLate(s)
  {
    var t := Run(s, acts);
    NextFindsNone(t);
    if t.server.Calling? {
      RunOn(s, acts, FetchData);
      TooLateAfter(s, acts + [FetchData], StoreStop);
    } else {
      TooLateAfter(s, acts, if t.server.Typing? then FetchHandler else StoreStop);
    }
  }

  /** When a typed character can come too late, exactly: its task has gone, or nothing
      keeps it from going.  What keeps it is the Mongoose lock, which the console
      thread holds, at the moment the task wants it for a write. */
  lemma InputIsLateIff(s: State)
    requires Inv(s) && AtInput(s)
    ensures CanComeTooLate(s) <==> Target(s).None? || !HeldUp(s, Target(s).value)
  {
    if Target(s).None? {
      assert IsRuledRun(s, []) && IsRun(s, []) && Run(s, []) == s;
      GoneIsTooLate(s, []);
    } else {
      var id := Target(s).value;
      if HeldUp(s, id) {
        if CanComeTooLate(s) {
          var acts, a :| IsRuledRun(s, acts) && IsRun(s, acts) && StoreStop !in acts
            && Delivers(a) && Enabled(Run(s, acts), a) && !Safe(Run(s, acts), a);
          WaitingIsSafe(s, acts, id);
          StepIsSound(Run(s, acts), a);
        }
      } else {
        var acts := TaskEndsFirst(s, id);
        GoneIsTooLate(s, acts);
      }
    }
  }

  // -------------------------------------------------------------- reached

  /** A delivery that can come too late, at each of its steps. */
  lemma TooLateIsReached(mode: Mode, k: nat) returns (s: State)
    requires k < 3
    ensures Reachable(mode, s) && s.server == [Typing, Calling, Delivering(Some(0))][k]
    ensures Target(s) == Some(0) && s.tasks[0].pc == Serving
    ensures CanComeTooLate(s)
  {
    s := StartedReached(mode);
    ReachedNext(mode, s, TestInsert);
    s := Next(s, TestInsert);
    if k > 0 {
      ReachedNext(mode, s, FetchHandler);
      s := Next(s, FetchHandler);
    }
    if k > 1 {
      ReachedNext(mode, s, FetchData);
      s := Next(s, FetchData);
    }
    ReachableInv(mode, s);
    InputIsLateIff(s);
  }
}
