/**
 The teardown of a console over whole runs: states the protocol does reach, every
 reaping poll that finds the task gone, and how many steps a stopping task takes.
 */
module TeardownRuns {
  import opened Common
  import opened FollowTask
  import opened ConsoleTeardown

  // -------------------------------------------------------- reached states

  lemma ReachedNext(mode: Mode, s: State, a: Action)
    requires Reachable(mode, s) && Enabled(s, a) && Allowed(s, a)
    ensures Reachable(mode, Next(s, a))
  {
    LeadsByOne(s, a);
    LeadsOn(Init(mode), s, Next(s, a));
  }

  lemma ReachedInit(mode: Mode)
    ensures Reachable(mode, Init(mode))
  {
    LeadsNowhere(Init(mode));
  }

  /** A command task just started. */
  lemma StartedReached(mode: Mode) returns (s: State)
    ensures Reachable(mode, s) && ServerMay(s) && s.mode == mode && s.server.Idle? && !s.closing
    ensures s.sentinel == Follow && s.termData == Some(0) && s.insert == Terminator(0)
    ensures s.tasks == map[0 := Task(Serving, false)] && s.lock == if mode == Mongoose then Server else Free
  {
    ReachedInit(mode);
    s := Init(mode);
    if mode == Mongoose {
      ReachedNext(mode, s, LockTaken);
      s := Next(s, LockTaken);
    }
    ReachedNext(mode, s, StartCommand);
    s := Next(s, StartCommand);
    ReachedNext(mode, s, StoreData);
    s := Next(s, StoreData);
    ReachedNext(mode, s, StoreSentinel);
    s := Next(s, StoreSentinel);
    ReachedNext(mode, s, Instantiate(true));
    s := Next(s, Instantiate(true));
  }

  const LAST_WORDS := [Serving, Checking, Exiting, Writing(Caret, Test), Writing(Caret, Flags), Unhooking, Flushing(0)]

  /** On the way to its unhooking, a task that has been stopped. */
  ghost predicate Leaving(mode: Mode, s: State, i: nat) {
    && Reachable(mode, s) && ServerMay(s) && s.server.Idle? && !s.closing
    && i < |LAST_WORDS| && s.sentinel == Follow && s.termData == Some(0)
    && s.tasks == map[0 := Task(LAST_WORDS[i], true)]
    && s.insert == if i < 6 then Terminator(0) else NoInsert
  }

  lemma LeavingGoesOn(mode: Mode, s: State, i: nat) returns (t: State)
    requires Leaving(mode, s, i) && i < 6
    ensures Leaving(mode, t, i + 1)
  {
    var a := TaskStep(0, Choice(false, false, false, false, 0));
    ReachedNext(mode, s, a);
    t := Next(s, a);
  }

  /** The input callback does admit a command beside a task that is still registered,
      and starting it there is unsafe. */
  lemma StragglerIsReached(mode: Mode) returns (s: State)
    ensures Reachable(mode, s) && Enabled(s, StartCommand) && s.sentinel == Follow
    ensures Doomed(Next(s, StartCommand))
  {
    s := StartedReached(mode);
    var typed := CtrlCTyped(s, 0);
    LeadsOn(Init(mode), s, typed);
    s := typed;
    var i := 0;
    while i < 6
      invariant 0 <= i <= 6 && Leaving(mode, s, i)
    {
      s := LeavingGoesOn(mode, s, i);
      i := i + 1;
    }
    ReachableInv(mode, s);
    StartBesideStragglerIsDoomed(s);
  }

  /** A task can be about to read the flags while nothing hinders the connection's
      closing. */
  lemma FlagsReadIsReached() returns (s: State)
    ensures Reachable(Mongoose, s) && s.server.Idle? && s.lock == Free
    ensures TaskEnabled(s, 0) && s.tasks[0].pc == Writing(Output, Flags)
  {
    var write := Choice(true, false, false, true, 0);
    s := StartedReached(Mongoose);
    ReachedNext(Mongoose, s, LockReleased);
    s := Next(s, LockReleased);
    ReachedNext(Mongoose, s, TaskStep(0, write));
    s := Next(s, TaskStep(0, write));
    ReachedNext(Mongoose, s, TaskStep(0, write));
    s := Next(s, TaskStep(0, write));
  }

  // ---------------------------------------------------------- every reaping

  /** How many steps of the destructors' rounds a run contains. */
  function Rounds(acts: seq<Action>): nat {
    if acts == [] then 0 else (if acts[0].RoundStep? then 1 else 0) + Rounds(acts[1..])
  }

  /** The destructors' rounds of a console without a task go on to the end: three
      steps, each of them possible at any time, whatever the others do. */
  lemma {:induction false} RoundsGoOn(s: State, acts: seq<Action>)
    requires Inv(s) && s.mode == Mongoose && s.server.Round? && s.server.step == ReadHandler && s.sentinel == Null
    requires IsRuledRun(s, acts)
    ensures IsRun(s, acts)
    ensures var t := Run(s, acts);
      if Rounds(acts) < s.server.left
      then t.server == Round(s.server.left - Rounds(acts), ReadHandler) && Enabled(t, RoundStep)
      else t.server == Gone && t.frees == 1 && t.reaping == 0
    decreases |acts|
  {
    if acts != [] {
      StepKeepsInv(s, acts[0]);
      var t := Next(s, acts[0]);
      if t.server.Round? {
        RoundsGoOn(t, acts[1..]);
      } else {
        GoneStaysGone(t, acts[1..]);
      }
    }
  }

  lemma {:induction false} GoneStaysGone(s: State, acts: seq<Action>)
    requires Inv(s) && s.mode == Mongoose && s.server.Gone? && IsRuledRun(s, acts)
    ensures IsRun(s, acts) && Run(s, acts).server.Gone? && Run(s, acts).frees == 1 && Run(s, acts).reaping == 0
    decreases |acts|
  {
    if acts != [] {
      StepKeepsInv(s, acts[0]);
      GoneStaysGone(Next(s, acts[0]), acts[1..]);
    }
  }

  /** Every poll that reaps a deferred console deletes it if the task has gone, and
      leaves it alone otherwise. */
  lemma EveryReapDeletes(s: State, acts: seq<Action>)
    requires Reachable(Mongoose, s) && s.server.Detached? && Enabled(s, ReapConsoles)
    requires IsRuledRun(Next(s, ReapConsoles), acts)
    ensures s.sentinel != Null ==> Next(s, ReapConsoles) == s
    ensures IsRun(Next(s, ReapConsoles), acts)
    ensures s.sentinel == Null ==>
      var t := Run(Next(s, ReapConsoles), acts);
      if Rounds(acts) < ROUNDS then t.server == Round(ROUNDS - Rounds(acts), ReadHandler) && Enabled(t, RoundStep)
      else t.server == Gone && t.frees == 1 && t.reaping == 0
  {
    ReachableInv(Mongoose, s);
    StepKeepsInv(s, ReapConsoles);
    RuledRunIsRun(Next(s, ReapConsoles), acts);
    if s.sentinel == Null { RoundsGoOn(Next(s, ReapConsoles), acts); }
  }

  // ----------------------------------------------------- a stopping task's steps

  /** An upper bound on the steps a stopping task has still to take, if `finalise`
      makes at most `f` writes. */
  function Fuel(pc: Pc, f: nat): nat {
    match pc
    case Created => 16 + 5 * f
    case Serving => 15 + 5 * f
    case Writing(Output, w) => 10 + 5 * f + WriteRank(w)
    case Writing(FileLost, w) => 10 + 5 * f + WriteRank(w)
    case Checking => 10 + 5 * f
    case Exiting => 9 + 5 * f
    case Writing(Caret, w) => 4 + 5 * f + WriteRank(w)
    case Unhooking => 4 + 5 * f
    case Flushing(left) => 3 + 5 * left
    case Writing(Flush(left), w) => 3 + 5 * left + WriteRank(w)
    case Deregistering => 2
    case FreeingArgs => 1
  }

  function OwnSteps(acts: seq<Action>, id: nat): nat {
    if acts == [] then 0 else (if acts[0].TaskStep? && acts[0].id == id then 1 else 0) + OwnSteps(acts[1..], id)
  }

  /** No flush in the run makes more than `f` writes. */
  predicate FlushesAtMost(acts: seq<Action>, f: nat) {
    forall i | 0 <= i < |acts| && acts[i].TaskStep? :: acts[i].c.flushes <= f
  }

  lemma FuelFalls(pc: Pc, closing: bool, hooked: bool, c: Choice, f: nat)
    requires pc != Created && pc != FreeingArgs && c.flushes <= f
    ensures Fuel(PcAfter(pc, closing, true, hooked, c), f) < Fuel(pc, f)
  {
  }

  lemma GoneTaskStep(s: State, a: Action, id: nat)
    requires Inv(s) && Enabled(s, a) && id < s.nextId && id !in s.tasks
    ensures id < Next(s, a).nextId && id !in Next(s, a).tasks && !(a.TaskStep? && a.id == id)
  {
  }

  lemma {:induction false} GoneTaskStaysGone(s: State, acts: seq<Action>, id: nat)
    requires Inv(s) && IsRuledRun(s, acts) && id < s.nextId && id !in s.tasks
    ensures IsRun(s, acts) && id !in Run(s, acts).tasks && OwnSteps(acts, id) == 0
    decreases |acts|
  {
    if acts != [] {
      StepKeepsInv(s, acts[0]);
      GoneTaskStep(s, acts[0], id);
      GoneTaskStaysGone(Next(s, acts[0]), acts[1..], id);
    }
  }

  /** Once asked to stop, a task takes only so many steps of its own in any run, and
      when it has taken them all it is gone. */
  lemma {:induction false} StoppingTaskIsBounded(s: State, acts: seq<Action>, id: nat, f: nat)
    requires Inv(s) && IsRuledRun(s, acts) && FlushesAtMost(acts, f)
    requires id in s.tasks && s.tasks[id].stop && s.tasks[id].pc != Created
    ensures IsRun(s, acts) && OwnSteps(acts, id) <= Fuel(s.tasks[id].pc, f)
    ensures id in Run(s, acts).tasks ==>
      OwnSteps(acts, id) + Fuel(Run(s, acts).tasks[id].pc, f) <= Fuel(s.tasks[id].pc, f)
    decreases |acts|
  {
    if acts != [] {
      var (a, t) := (acts[0], Next(s, acts[0]));
      assert FlushesAtMost(acts[1..], f);
      StepKeepsInv(s, a);
      assert TaskInv(s, id);
      if a.TaskStep? && a.id == id {
        if s.tasks[id].pc == FreeingArgs {
          GoneTaskStaysGone(t, acts[1..], id);
        } else {
          FuelFalls(s.tasks[id].pc, s.closing, s.insert.Terminator?, a.c, f);
          StoppingTaskIsBounded(t, acts[1..], id, f);
        }
      } else {
        OthersLeaveTaskAlone(s, a, id);
        StoppingTaskIsBounded(t, acts[1..], id, f);
      }
    }
  }

  // --------------------------------------------------------- after the close

  ghost predicate AtFlags(s: State, id: nat) {
    id in s.tasks && s.tasks[id].pc.Writing? && s.tasks[id].pc.step == Flags
  }

  /** A console marked as closing, with no task past its test of that mark. */
  ghost predicate Quiet(s: State) {
    s.closing && forall id | id in s.tasks :: !AtFlags(s, id)
  }

  lemma QuietLasts(s: State, a: Action)
    requires Inv(s) && Quiet(s) && Enabled(s, a)
    ensures Quiet(Next(s, a)) && Safe(s, a)
  {
    StepIsSound(s, a);
    var t := Next(s, a);
    forall id | id in t.tasks ensures !AtFlags(t, id) {
      assert id in s.tasks ==> !AtFlags(s, id);
    }
    if a.TaskStep? { assert !AtFlags(s, a.id); }
  }

  lemma {:induction false} QuietRun(s: State, acts: seq<Action>)
    requires Inv(s) && Quiet(s) && IsRuledRun(s, acts)
    ensures IsRun(s, acts) && Inv(Run(s, acts)) && Quiet(Run(s, acts))
    decreases |acts|
  {
    if acts != [] {
      StepKeepsInv(s, acts[0]);
      QuietLasts(s, acts[0]);
      QuietRun(Next(s, acts[0]), acts[1..]);
    }
  }

  /** Some orderly run reaches a step that touches a freed object. */
  ghost predicate CanGoWrong(s: State) {
    exists t, a :: Leads(s, t) && Enabled(t, a) && !Safe(t, a)
  }

  /** Once the console is marked as closing, nothing can go wrong any more exactly if no
      task has passed its test of the mark. */
  lemma ClosedIsSafeIff(s: State)
    requires Inv(s) && s.closing
    ensures CanGoWrong(s) <==> exists id :: AtFlags(s, id)
  {
    if Quiet(s) {
      if CanGoWrong(s) {
        var t, a :| Leads(s, t) && Enabled(t, a) && !Safe(t, a);
        var acts :| IsRuledRun(s, acts) && IsRun(s, acts) && Run(s, acts) == t;
        QuietRun(s, acts);
        QuietLasts(t, a);
      }
    } else {
      var id :| id in s.tasks && AtFlags(s, id);
      var t := CloseComesFirst(s, id);
      var a := TaskStep(id, Choice(false, false, false, false, 0));
      assert Enabled(t, a) && TheConnection in Touches(t, a) && !Live(t, TheConnection);
    }
  }

  // ------------------------------------------------------------ control flow

  /** A task at its work: reading the file, writing what it read, and waiting. */
  predicate Following(pc: Pc) {
    pc.Serving? || pc.Checking? || (pc.Writing? && pc.site.Output?)
  }

  /** In none of its steps does the task find its file lost. */
  predicate KeepsFile(acts: seq<Action>, id: nat) {
    forall i | 0 <= i < |acts| && acts[i].TaskStep? && acts[i].id == id :: !acts[i].c.lost
  }

  /** A task goes on for as long as it keeps its file and nobody asks it to stop. */
  lemma {:induction false} UnstoppedTaskFollows(s: State, acts: seq<Action>, id: nat)
    requires Inv(s) && IsRuledRun(s, acts) && KeepsFile(acts, id)
    requires id in s.tasks && s.tasks[id].pc != Created && (s.tasks[id].stop || Following(s.tasks[id].pc))
    ensures IsRun(s, acts)
    ensures id in Run(s, acts).tasks ==> Run(s, acts).tasks[id].stop || Following(Run(s, acts).tasks[id].pc)
    decreases |acts|
  {
    if acts != [] {
      var (a, t) := (acts[0], Next(s, acts[0]));
      assert KeepsFile(acts[1..], id);
      StepKeepsInv(s, a);
      assert TaskInv(s, id);
      if !(a.TaskStep? && a.id == id) { OthersLeaveTaskAlone(s, a, id); }
      if id in t.tasks {
        UnstoppedTaskFollows(t, acts[1..], id);
      } else {
        GoneTaskStaysGone(t, acts[1..], id);
      }
    }
  }

  /** Where `n` steps of its own take a task whose output is accepted. */
  function AfterSteps(pc: Pc, hooked: bool, n: nat, c: Choice): Pc
    decreases n
  {
    if n == 0 then pc else AfterSteps(PcAfter(pc, false, true, hooked, c), hooked, n - 1, c)
  }

  lemma {:induction false} AfterMoreSteps(pc: Pc, hooked: bool, m: nat, n: nat, c: Choice)
    ensures AfterSteps(pc, hooked, m + n, c) == AfterSteps(AfterSteps(pc, hooked, m, c), hooked, n, c)
    decreases m
  {
    if m > 0 { AfterMoreSteps(PcAfter(pc, false, true, hooked, c), hooked, m - 1, n, c); }
  }

  const OPEN := Choice(false, false, false, true, 0)

  /** One write of a flush takes five steps: to the write, through its two tests and
      the lock to the sending, and back. */
  lemma OneFlushWrite(left: nat)
    requires left > 0
    ensures AfterSteps(Flushing(left), true, 4, OPEN) == Writing(Flush(left - 1), Send)
    ensures AfterSteps(Flushing(left), true, 5, OPEN) == Flushing(left - 1)
  {
    var p1 := PcAfter(Flushing(left), false, true, true, OPEN);
    var p2 := PcAfter(p1, false, true, true, OPEN);
    var p3 := PcAfter(p2, false, true, true, OPEN);
    var p4 := PcAfter(p3, false, true, true, OPEN);
    assert AfterSteps(p4, true, 0, OPEN) == p4 && AfterSteps(p3, true, 1, OPEN) == p4;
    assert AfterSteps(p2, true, 2, OPEN) == p4 && AfterSteps(p1, true, 3, OPEN) == p4;
    AfterMoreSteps(Flushing(left), true, 4, 1, OPEN);
    assert AfterSteps(p4, true, 1, OPEN) == AfterSteps(PcAfter(p4, false, true, true, OPEN), true, 0, OPEN);
  }

  /** A flush of `left` messages sends each of them before the task deregisters. */
  lemma {:induction false} FlushSendsAll(left: nat, k: nat)
    requires k < left
    ensures AfterSteps(Flushing(left), true, 5 * k + 4, OPEN) == Writing(Flush(left - k - 1), Send)
    ensures AfterSteps(Flushing(left), true, 5 * left + 1, OPEN) == Deregistering
    decreases left
  {
    OneFlushWrite(left);
    AfterMoreSteps(Flushing(left), true, 5, 5 * (left - 1) + 1, OPEN);
    if left == 1 {
      assert AfterSteps(Flushing(0), true, 1, OPEN) == PcAfter(Flushing(0), false, true, true, OPEN);
    } else {
      FlushSendsAll(left - 1, if k == 0 then 0 else k - 1);
    }
    if k > 0 { AfterMoreSteps(Flushing(left), true, 5, 5 * (k - 1) + 4, OPEN); }
  }

  /** The console thread's preparations for a command's task. */
  lemma ThreePreparations(s: State) returns (s1: State, s2: State, s3: State)
    requires Inv(s) && Enabled(s, StartCommand)
    ensures s1 == Next(s, StartCommand) && Enabled(s1, StoreData) && s2 == Next(s1, StoreData)
    ensures Enabled(s2, StoreSentinel) && s3 == Next(s2, StoreSentinel)
    ensures var id := s.nextId;
      s3 == s.(tasks := s.tasks[id := Task(Created, false)], nextId := id + 1, insert := Terminator(id),
               server := Starting(id, 2), termData := Some(id), sentinel := Follow)
  {
    s1 := Next(s, StartCommand);
    s2 := Next(s1, StoreData);
    s3 := Next(s2, StoreSentinel);
  }

  lemma TheirUndoing(s: State, s3: State) returns (s4: State, s5: State)
    requires Inv(s) && Enabled(s, StartCommand) && s.sentinel == Null
    requires var id := s.nextId;
      s3 == s.(tasks := s.tasks[id := Task(Created, false)], nextId := id + 1, insert := Terminator(id),
               server := Starting(id, 2), termData := Some(id), sentinel := Follow)
    ensures Enabled(s3, Instantiate(false)) && s4 == Next(s3, Instantiate(false))
    ensures Enabled(s4, FailDelete) && s5 == Next(s4, FailDelete)
    ensures s5 == s.(nextId := s.nextId + 1, termData := None)
  {
    assert s.nextId in s.tasks ==> TaskInv(s, s.nextId);
    s4 := Next(s3, Instantiate(false));
    s5 := Next(s4, FailDelete);
    assert s5.tasks == s.tasks;
  }

  const FAILED_START := [StartCommand, StoreData, StoreSentinel, Instantiate(false), FailDelete]

  /** A command whose task cannot be created leaves the console as it was. */
  lemma FailedStartIsUndone(s: State)
    requires Inv(s) && Enabled(s, StartCommand) && s.sentinel == Null
    ensures IsRun(s, FAILED_START) && Run(s, FAILED_START) == s.(nextId := s.nextId + 1, termData := None)
  {
    var s1, s2, s3 := ThreePreparations(s);
    var s4, s5 := TheirUndoing(s, s3);
    FiveSteps(s, FAILED_START, s1, s2, s3, s4, s5);
  }

  lemma FiveSteps(s: State, acts: seq<Action>, s1: State, s2: State, s3: State, s4: State, s5: State)
    requires |acts| == 5
    requires Enabled(s, acts[0]) && s1 == Next(s, acts[0]) && Enabled(s1, acts[1]) && s2 == Next(s1, acts[1])
    requires Enabled(s2, acts[2]) && s3 == Next(s2, acts[2]) && Enabled(s3, acts[3]) && s4 == Next(s3, acts[3])
    requires Enabled(s4, acts[4]) && s5 == Next(s4, acts[4])
    ensures IsRun(s, acts) && Run(s, acts) == s5
  {
    var (r1, r2, r3, r4) := (acts[1..], acts[2..], acts[3..], acts[4..]);
    assert r1[1..] == r2 && r2[1..] == r3 && r3[1..] == r4 && r4[1..] == [];
    assert IsRun(s4, r4) && Run(s4, r4) == s5;
    assert IsRun(s3, r3) && Run(s3, r3) == s5;
    assert IsRun(s2, r2) && Run(s2, r2) == s5;
    assert IsRun(s1, r1) && Run(s1, r1) == s5;
  }

  // ------------------------------------------------- other commands' handlers

  /** A command without a task of its own comes to be registered, and the console to
      its destructors. */
  lemma OtherIsReached(mode: Mode) returns (s: State)
    ensures Reachable(mode, s) && ServerMay(s) && s.sentinel == Other && s.server == Round(ROUNDS, ReadHandler)
  {
    ReachedInit(mode);
    s := Init(mode);
    if mode == Mongoose {
      ReachedNext(mode, s, LockTaken);
      s := Next(s, LockTaken);
    }
    ReachedNext(mode, s, RegisterOther);
    s := Next(s, RegisterOther);
    var a := if mode == Direct then Teardown else CloseConsole;
    ReachedNext(mode, s, a);
    s := Next(s, a);
  }

  /** Its handler is called in the first round, once; afterwards nobody is registered,
      and the other rounds find nothing to do. */
  lemma OtherHandlerRuns(s: State) returns (called: State, t: State)
    requires Inv(s) && ServerMay(s) && s.sentinel == Other && s.server == Round(ROUNDS, ReadHandler)
    ensures Leads(s, called) && called.server == Round(ROUNDS, RunOther) && called.sentinel == Other
    ensures Leads(called, t) && t.server.Gone? && t.sentinel == Null && t.tasks == s.tasks
  {
    called := Next(s, RoundStep);
    LeadsByOne(s, RoundStep);
    var s2 := Next(called, RoundStep);
    var s3 := Next(s2, RoundStep);
    var s4 := Next(s3, RoundStep);
    assert s4.server == Round(ROUNDS - 1, ReadHandler) && s4.sentinel == Null;
    t := RoundsEnd(s4);
    assert Inv(t) by {
      StepKeepsInv(s, RoundStep);
      StepKeepsInv(called, RoundStep);
      StepKeepsInv(s2, RoundStep);
      StepKeepsInv(s3, RoundStep);
    }
    LeadsFirst(s3, RoundStep, t);
    LeadsFirst(s2, RoundStep, t);
    LeadsFirst(called, RoundStep, t);
  }
}
