/**
 The protocol between a follow-mode command task and the teardown of the
 console it writes to.

 Two threads share one `OvmsWriter`.  The console thread starts commands,
 handles typed characters and tears the console down; the command task runs
 beside it and frees itself.  Every action below is one step of the code: an
 access of a shared field, a critical section under `termination_mux`, a pair of
 stores that sets or clears a handler together with its data, or work of the
 console thread on a task that no other thread knows.  A state machine over these
 steps covers every interleaving of them.
 */
module FollowTask {
  import opened Common

  /** How the console is torn down: `Direct` joins the task on the console's own
      thread (Bluetooth, USB); `Mongoose` closes from a handler that holds the
      Mongoose lock and leaves the rest to `ConsoleReaper` (SSH, Telnet). */
  datatype Mode = Direct | Mongoose

  /** `m_termination`: NULL, `OvmsCommandTask::TerminationHandler`, or the handler
      of a command that has no task of its own. */
  datatype Sentinel = Null | Follow | Other

  /** `m_insert` with its `m_userData`. */
  datatype Insert = NoInsert | Terminator(task: nat) | OtherInsert

  /** Which output a write in progress belongs to. */
  datatype Site = Output | FileLost | Caret | Flush(left: nat)

  /** The steps of one write: test `m_closing`, read the connection's flags, take
      the Mongoose lock, test `m_closing` again and send. */
  datatype WriteStep = Test | Flags | Take | Send

  /** Program counter of a command task. */
  datatype Pc =
    | Created
    | Serving
    | Writing(site: Site, step: WriteStep)
    | Checking
    | Exiting
    | Unhooking
    | Flushing(left: nat)
    | Deregistering
    | FreeingArgs

  /** `stop` is `m_state == OCS_StopRequested`. */
  datatype Task = Task(pc: Pc, stop: bool)

  datatype RoundStep = ReadHandler | StopTask | WaitTask | RunOther | ClearData | ClearSentinel

  /** Program counter of the console thread. `Round` is one call of
      `RunTerminationCallback`; a console's destructors make three of them.  A typed
      character finds `m_insert` set (`Typing`), reads it again to call it (`Calling`),
      reads `m_userData`, and the handler stores through that (`Delivering`). */
  datatype ServerPc =
    | Idle
    | Typing
    | Calling
    | Delivering(data: Option<nat>)
    | Starting(task: nat, done: nat)
    | Failing(task: nat)
    | Closing
    | Marked
    | Detached
    | Round(left: nat, step: RoundStep)
    | Gone

  datatype Holder = Free | Server | ByTask(id: nat) | Elsewhere

  datatype State = State(
    mode: Mode,
    sentinel: Sentinel,
    termData: Option<nat>,
    insert: Insert,
    closing: bool,
    tasks: map<nat, Task>,
    nextId: nat,
    server: ServerPc,
    lock: Holder,
    writerLive: bool,
    connLive: bool,
    reaping: nat,
    deferred: Option<bool>,
    frees: nat)

  /** What a step of the task leaves open: whether there is anything to write,
      whether the file was lost, whether the output call skips the unlocked tests
      (`puts`, `printf`), whether the connection accepts output, and how many
      writes `finalise` makes. */
  datatype Choice = Choice(write: bool, lost: bool, puts: bool, open: bool, flushes: nat)

  datatype Action =
    | TaskStep(id: nat, c: Choice)
    | LockTaken | LockReleased | OthersLock | OthersUnlock
    | StartCommand | StoreData | StoreSentinel | Instantiate(ok: bool) | FailDelete
    | TestInsert | FetchHandler | FetchData | StoreStop | RegisterOther | DeregisterOther
    | Teardown | CloseConsole | MarkClosing | CloseReturns | ReapConsoles
    | RoundStep

  const ROUNDS: nat := 3

  ghost function Init(mode: Mode): State {
    State(mode, Null, None, NoInsert, false, map[], 0, Idle, Free, true, true, 0, None, 0)
  }

  // ------------------------------------------------------------------ steps

  /** The console thread runs its handlers under the Mongoose lock, if it has one. */
  ghost predicate ServerMay(s: State) {
    s.mode == Direct || s.lock == Server
  }

  ghost predicate TaskEnabled(s: State, id: nat) {
    && id in s.tasks
    && s.tasks[id].pc != Created
    && (s.tasks[id].pc.Writing? && s.tasks[id].pc.step == Take ==> s.lock == Free)
  }

  /** Can the code take this step now? */
  ghost predicate Enabled(s: State, a: Action) {
    match a
    case TaskStep(id, _) => TaskEnabled(s, id)
    case LockTaken => s.mode == Mongoose && s.lock == Free && (s.server.Idle? || s.server.Detached?)
    case LockReleased => s.lock == Server && (s.server.Idle? || s.server.Detached? || s.server.Gone?)
    case OthersLock => s.mode == Mongoose && s.lock == Free
    case OthersUnlock => s.lock == Elsewhere
    case StartCommand => ServerMay(s) && s.server.Idle? && s.insert.NoInsert?
    case StoreData => ServerMay(s) && s.server.Starting? && s.server.done == 0
    case StoreSentinel => ServerMay(s) && s.server.Starting? && s.server.done == 1
    case Instantiate(_) => ServerMay(s) && s.server.Starting? && s.server.done == 2
    case FailDelete => ServerMay(s) && s.server.Failing?
    case TestInsert => ServerMay(s) && s.server.Idle? && s.insert.Terminator?
    case FetchHandler => ServerMay(s) && s.server.Typing?
    case FetchData => ServerMay(s) && s.server.Calling?
    case StoreStop => ServerMay(s) && s.server.Delivering?
    case RegisterOther => ServerMay(s) && s.server.Idle? && s.insert.NoInsert?
    case DeregisterOther => ServerMay(s) && s.server.Idle? && s.insert.OtherInsert?
    case Teardown => s.mode == Direct && s.server.Idle?
    case CloseConsole => s.mode == Mongoose && s.lock == Server && s.server.Idle?
    case MarkClosing => ServerMay(s) && s.server.Closing?
    case CloseReturns => ServerMay(s) && s.server.Marked?
    case ReapConsoles => s.mode == Mongoose && s.lock == Server && s.server.Detached?
    case RoundStep =>
      && ServerMay(s) && s.server.Round?
      && (s.server.step == WaitTask ==> s.sentinel != Follow)
  }

  /** Control returns from a write to the place it was made from. */
  function After(site: Site): Pc {
    match site
    case Output => Checking
    case FileLost => Exiting
    case Caret => Unhooking
    case Flush(left) => Flushing(left)
  }

  ghost function Goto(s: State, id: nat, pc: Pc): State
    requires id in s.tasks
  {
    s.(tasks := s.tasks[id := s.tasks[id].(pc := pc)])
  }

  ghost function Without(tasks: map<nat, Task>, id: nat): map<nat, Task> {
    map k | k in tasks && k != id :: tasks[k]
  }

  /** The control flow of `Service()` and `~OvmsCommandTask`: `stop` is the task's
      own flag, `closing` the console's, `hooked` whether `m_insert` is still a
      task's `Terminator`. */
  function PcAfter(pc: Pc, closing: bool, stop: bool, hooked: bool, c: Choice): Pc {
    match pc
    case Serving =>
      if c.write then Writing(Output, Test)
      else if c.lost then Writing(FileLost, if c.puts then Take else Test)
      else Checking
    case Writing(site, Test) => if closing then After(site) else Writing(site, Flags)
    case Writing(site, Flags) => if c.open then Writing(site, Take) else After(site)
    case Writing(site, Take) => Writing(site, Send)
    case Writing(site, Send) => After(site)
    case Checking => if stop then Exiting else Serving
    case Exiting => if stop then Writing(Caret, if c.puts then Take else Test) else Unhooking
    case Unhooking => if hooked then Flushing(c.flushes) else Deregistering
    case Flushing(left) =>
      if left == 0 then Deregistering else Writing(Flush(left - 1), if c.puts then Take else Test)
    case Deregistering => FreeingArgs
    case FreeingArgs => FreeingArgs
    case Created => Created
  }

  /** One step of the task, with its effect on the console. */
  ghost function TaskNext(s: State, id: nat, c: Choice): State
    requires TaskEnabled(s, id)
  {
    var pc := s.tasks[id].pc;
    if pc.FreeingArgs? then s.(tasks := Without(s.tasks, id))
    else
      var t := Goto(s, id, PcAfter(pc, s.closing, s.tasks[id].stop, s.insert.Terminator?, c));
      match pc
      case Writing(_, Take) => t.(lock := ByTask(id))
      case Writing(_, Send) => t.(lock := Free)
      case Unhooking => if s.insert.Terminator? then t.(insert := NoInsert) else t
      case Deregistering => Deregister(t)
      case _ => t
  }

  /** `DeregisterTerminationCallback(TerminationHandler)`: compares the handler only. */
  ghost function Deregister(s: State): State {
    if s.sentinel == Follow then s.(termData := None, sentinel := Null) else s
  }

  /** `RequestStop()` on the task that the registration names. */
  ghost function RequestStop(s: State): State {
    if s.termData.Some? && s.termData.value in s.tasks
    then s.(tasks := s.tasks[s.termData.value := s.tasks[s.termData.value].(stop := true)])
    else s
  }

  /** `Terminator` on the task it was given. A store elsewhere is without effect here. */
  ghost function StopGiven(s: State): State
    requires s.server.Delivering?
  {
    var t := s.(server := Idle);
    if s.server.data.Some? && s.server.data.value in s.tasks
    then t.(tasks := s.tasks[s.server.data.value := s.tasks[s.server.data.value].(stop := true)])
    else t
  }

  ghost function RoundNext(s: State): State
    requires s.server.Round?
  {
    var left := s.server.left;
    match s.server.step
    case ReadHandler =>
      if s.sentinel == Follow then s.(server := Round(left, StopTask))
      else if s.sentinel == Other then s.(server := Round(left, RunOther))
      else EndRound(s)
    case StopTask =>
      if s.sentinel == Follow then RequestStop(s).(server := Round(left, WaitTask))
      else s.(server := Round(left, ClearData))
    case WaitTask => s.(server := Round(left, ClearData))
    case RunOther => s.(server := Round(left, ClearData))
    case ClearData => s.(termData := None, server := Round(left, ClearSentinel))
    case ClearSentinel => EndRound(s.(sentinel := Null))
  }

  /** The next destructor's round, or the end of the console object. */
  ghost function EndRound(s: State): State
    requires s.server.Round?
  {
    if s.server.left > 1 then s.(server := Round(s.server.left - 1, ReadHandler))
    else s.(server := Gone, writerLive := false, connLive := false, frees := s.frees + 1,
            reaping := if s.deferred == Some(true) && s.reaping > 0 then s.reaping - 1 else s.reaping)
  }

  ghost function Next(s: State, a: Action): State
    requires Enabled(s, a)
  {
    match a
    case TaskStep(id, c) => TaskNext(s, id, c)
    case LockTaken => s.(lock := Server)
    case LockReleased => s.(lock := Free)
    case OthersLock => s.(lock := Elsewhere)
    case OthersUnlock => s.(lock := Free)
    case StartCommand =>
      s.(tasks := s.tasks[s.nextId := Task(Created, false)], nextId := s.nextId + 1,
         insert := Terminator(s.nextId), server := Starting(s.nextId, 0))
    case StoreData => s.(termData := Some(s.server.task), server := Starting(s.server.task, 1))
    case StoreSentinel => s.(sentinel := Follow, server := Starting(s.server.task, 2))
    case Instantiate(ok) =>
      if ok && s.server.task in s.tasks then Goto(s, s.server.task, Serving).(server := Idle)
      else Deregister(s).(server := Failing(s.server.task))
    case FailDelete =>
      Deregister(s).(tasks := Without(s.tasks, s.server.task), server := Idle,
                     insert := if s.insert.Terminator? then NoInsert else s.insert)
    case TestInsert => s.(server := Typing)
    case FetchHandler => s.(server := if s.insert.NoInsert? then Idle else Calling)
    case FetchData => s.(server := Delivering(if s.insert.Terminator? then Some(s.insert.task) else None))
    case StoreStop => StopGiven(s)
    case RegisterOther => s.(termData := None, sentinel := Other, insert := OtherInsert)
    case DeregisterOther =>
      if s.sentinel == Other then s.(termData := None, sentinel := Null, insert := NoInsert)
      else s.(insert := NoInsert)
    case Teardown => s.(server := Round(ROUNDS, ReadHandler))
    case CloseConsole =>
      if s.sentinel == Follow then RequestStop(s).(server := Closing)
      else s.(deferred := Some(false), server := Round(ROUNDS, ReadHandler))
    case MarkClosing => s.(closing := true, reaping := s.reaping + 1, server := Marked)
    case CloseReturns => s.(deferred := Some(true), connLive := false, server := Detached)
    case ReapConsoles =>
      if s.sentinel == Follow then s else s.(server := Round(ROUNDS, ReadHandler))
    case RoundStep => RoundNext(s)
  }

  // ------------------------------------------------- memory a step touches

  /** `TheHandler` is the function that `m_insert` names. */
  datatype Obj = TheWriter | TheConnection | TheTask(id: nat) | TheHandler

  ghost predicate Live(s: State, o: Obj) {
    match o
    case TheWriter => s.writerLive
    case TheConnection => s.connLive
    case TheTask(id) => id in s.tasks
    case TheHandler => !s.insert.NoInsert?
  }

  /** The objects dereferenced by a step. */
  ghost function Touches(s: State, a: Action): set<Obj>
    requires Enabled(s, a)
  {
    match a
    case TaskStep(id, _) =>
      (match s.tasks[id].pc
       case Writing(_, Flags) => {TheTask(id), TheWriter, TheConnection}
       case Writing(_, Send) => {TheTask(id), TheWriter} + if s.closing then {} else {TheConnection}
       case Writing(_, _) => {TheTask(id), TheWriter}
       case Unhooking => {TheTask(id), TheWriter}
       case Flushing(_) => {TheTask(id), TheWriter}
       case Deregistering => {TheTask(id), TheWriter}
       case _ => {TheTask(id)})
    case LockTaken | LockReleased | OthersLock | OthersUnlock => {}
    case StoreData | StoreSentinel | Instantiate(_) | FailDelete =>
      {TheWriter, TheTask(if s.server.Starting? || s.server.Failing? then s.server.task else 0)}
    case StartCommand => {TheWriter}
    case FetchHandler => {TheWriter, TheHandler}
    case StoreStop => {TheWriter, TheTask(if s.server.data.Some? then s.server.data.value else s.nextId)}
    case CloseConsole => {TheWriter} + StopTouches(s)
    case RoundStep =>
      {TheWriter} + if s.server.step == StopTask then StopTouches(s) else {}
    case _ => {TheWriter}
  }

  /** `StopFollowModeTask` dereferences `m_termData` when the sentinel matches. */
  ghost function StopTouches(s: State): set<Obj> {
    if s.sentinel != Follow then {}
    else match s.termData case Some(t) => {TheTask(t)} case None => {TheTask(s.nextId)}
  }

  /** One of the accesses made outside both locks: `m_connection->flags`. */
  ghost predicate ReadsFlags(s: State, a: Action)
    requires Enabled(s, a)
  {
    a.TaskStep? && s.tasks[a.id].pc.Writing? && s.tasks[a.id].pc.step == Flags
  }

  /** The others: calling the handler that was found set before, and its store to the
      task that it was registered for. */
  predicate Delivers(a: Action) {
    a.FetchHandler? || a.StoreStop?
  }

  /** Does the step dereference nothing but live objects? */
  ghost predicate Safe(s: State, a: Action)
    requires Enabled(s, a)
  {
    forall o | o in Touches(s, a) :: Live(s, o)
  }

  // ------------------------------------------------------------------ runs

  /** The documented registration rule: no command starts while a follow-mode
      task is still registered. */
  ghost predicate Allowed(s: State, a: Action) {
    a.StartCommand? || a.RegisterOther? ==> s.sentinel != Follow
  }

  ghost predicate IsRun(s: State, acts: seq<Action>)
    decreases |acts|
  {
    acts == [] || (Enabled(s, acts[0]) && IsRun(Next(s, acts[0]), acts[1..]))
  }

  ghost function Run(s: State, acts: seq<Action>): State
    requires IsRun(s, acts)
    decreases |acts|
  {
    if acts == [] then s else Run(Next(s, acts[0]), acts[1..])
  }

  /** A run in which every start obeys the rule. */
  ghost predicate IsRuledRun(s: State, acts: seq<Action>)
    decreases |acts|
  {
    acts == [] || (Enabled(s, acts[0]) && Allowed(s, acts[0]) && IsRuledRun(Next(s, acts[0]), acts[1..]))
  }

  lemma {:induction false} RuledRunIsRun(s: State, acts: seq<Action>)
    requires IsRuledRun(s, acts)
    ensures IsRun(s, acts)
    decreases |acts|
  {
    if acts != [] {
      RuledRunIsRun(Next(s, acts[0]), acts[1..]);
    }
  }

  // ------------------------------------------------------------- invariant

  /** Has this task still to clear its registration? */
  predicate Bound(pc: Pc) {
    pc != Created && pc != FreeingArgs
  }

  /** Does the task still own the typed characters? */
  predicate Hooked(pc: Pc) {
    Bound(pc) && !pc.Flushing? && !pc.Deregistering? && !(pc.Writing? && pc.site.Flush?)
  }

  /** The task under construction on the console thread. */
  ghost predicate Constructing(s: State, id: nat) {
    (s.server.Starting? || s.server.Failing?) && s.server.task == id
  }

  ghost predicate TaskInv(s: State, id: nat)
    requires id in s.tasks
  {
    var t := s.tasks[id];
    && id < s.nextId
    && (t.pc == Created <==> Constructing(s, id))
    && (Bound(t.pc) ==> s.sentinel == Follow && s.termData == Some(id))
    && (Hooked(t.pc) ==> s.insert == Terminator(id))
    && (t.pc.Writing? && t.pc.step == Send <==> s.lock == ByTask(id))
  }

  ghost predicate Registration(s: State) {
    && (s.sentinel == Follow ==>
          && s.termData.Some? && s.termData.value in s.tasks
          && s.tasks[s.termData.value].pc != FreeingArgs)
    && (s.insert.Terminator? ==>
          && s.insert.task in s.tasks
          && (s.tasks[s.insert.task].pc == Created || Hooked(s.tasks[s.insert.task].pc)))
    && (s.sentinel == Other ==> s.insert.OtherInsert?)
  }

  /** Whoever is still registered is a task that has been asked to stop. */
  ghost predicate StopPosted(s: State) {
    s.sentinel != Null ==>
      s.sentinel == Follow && s.termData.Some? && s.termData.value in s.tasks && s.tasks[s.termData.value].stop
  }

  ghost predicate ServerInv(s: State) {
    match s.server
    case Starting(id, done) =>
      && id in s.tasks && done <= 2 && s.insert == Terminator(id)
      && (done == 2 <==> s.sentinel == Follow)
      && (done == 1 ==> s.termData == Some(id))
      && (done == 2 ==> s.termData == Some(id))
    case Typing => !s.insert.OtherInsert?
    case Calling => !s.insert.OtherInsert?
    case Delivering(data) => data.Some? ==> data.value < s.nextId
    case Failing(id) => id in s.tasks && s.sentinel != Follow && s.insert == Terminator(id)
    case Closing => s.mode == Mongoose && StopPosted(s)
    case Marked => s.mode == Mongoose && StopPosted(s)
    case Detached => s.mode == Mongoose && StopPosted(s)
    case Round(left, step) =>
      && 1 <= left <= ROUNDS
      && (s.mode == Mongoose || step in {RunOther, ClearData, ClearSentinel} ==> s.sentinel != Follow)
      && (s.mode == Mongoose ==> step != StopTask && step != WaitTask)
      && (step == WaitTask ==> StopPosted(s))
    case _ => true
  }

  ghost predicate Lifetimes(s: State) {
    && (s.writerLive <==> !s.server.Gone?)
    && (s.server.Gone? ==> s.sentinel == Null)
    && s.frees == (if s.server.Gone? then 1 else 0)
    && (s.closing <==> s.server.Marked? || s.deferred == Some(true))
    && (!s.connLive <==> s.deferred == Some(true) || s.server.Gone?)
    && (s.server.Idle? || s.server.Typing? || s.server.Calling? || s.server.Delivering?
        || s.server.Starting? || s.server.Failing? || s.server.Closing? || s.server.Marked?
        ==> s.deferred == None)
    && (s.server.Detached? ==> s.deferred == Some(true))
    && (s.mode == Mongoose && s.server.Round? ==> s.deferred.Some?)
    && (s.mode == Mongoose && s.server.Gone? ==> s.deferred.Some?)
    && (s.mode == Direct ==> s.deferred == None)
    && s.reaping == (if s.server.Marked? || (s.deferred == Some(true) && !s.server.Gone?) then 1 else 0)
  }

  ghost predicate LockInv(s: State) {
    && (s.lock.ByTask? ==> s.lock.id in s.tasks)
    && (s.mode == Direct ==> s.lock != Server && s.lock != Elsewhere)
    && (s.mode == Mongoose && !s.server.Idle? && !s.server.Detached? && !s.server.Gone? ==> s.lock == Server)
  }

  ghost predicate Inv(s: State) {
    && (forall id | id in s.tasks :: TaskInv(s, id))
    && Registration(s)
    && ServerInv(s)
    && Lifetimes(s)
    && LockInv(s)
  }

  /** A step that only moves the program counter among the points before the
      task's deregistration. */
  lemma MoveKeepsInv(s: State, id: nat, pc: Pc)
    requires Inv(s) && id in s.tasks && Bound(s.tasks[id].pc) && Bound(pc)
    requires !(s.tasks[id].pc.Writing? && s.tasks[id].pc.step == Send)
    requires !(pc.Writing? && pc.step == Send)
    requires Hooked(s.tasks[id].pc) <==> Hooked(pc)
    ensures Inv(Goto(s, id, pc))
  {
    assert TaskInv(s, id);
    var s' := Goto(s, id, pc);
    forall k | k in s'.tasks ensures TaskInv(s', k) {
      assert TaskInv(s, k);
    }
  }

  lemma TakeKeepsInv(s: State, id: nat, c: Choice)
    requires Inv(s) && TaskEnabled(s, id) && s.tasks[id].pc.Writing? && s.tasks[id].pc.step == Take
    ensures Inv(TaskNext(s, id, c))
  {
    assert TaskInv(s, id);
    var s' := TaskNext(s, id, c);
    forall k | k in s'.tasks ensures TaskInv(s', k) {
      assert TaskInv(s, k);
    }
  }

  lemma SendKeepsInv(s: State, id: nat, c: Choice)
    requires Inv(s) && TaskEnabled(s, id) && s.tasks[id].pc.Writing? && s.tasks[id].pc.step == Send
    ensures Inv(TaskNext(s, id, c))
  {
    assert TaskInv(s, id);
    var s' := TaskNext(s, id, c);
    forall k | k in s'.tasks ensures TaskInv(s', k) {
      assert TaskInv(s, k);
    }
  }

  lemma UnhookKeepsInv(s: State, id: nat, c: Choice)
    requires Inv(s) && TaskEnabled(s, id)
    requires s.tasks[id].pc.Unhooking?
    ensures Inv(TaskNext(s, id, c))
  {
    assert TaskInv(s, id);
    var s' := TaskNext(s, id, c);
    forall k | k in s'.tasks ensures TaskInv(s', k) {
      assert TaskInv(s, k);
    }
  }

  lemma LastStepsKeepInv(s: State, id: nat, c: Choice)
    requires Inv(s) && TaskEnabled(s, id)
    requires s.tasks[id].pc.Deregistering? || s.tasks[id].pc.FreeingArgs?
    ensures Inv(TaskNext(s, id, c))
  {
    assert TaskInv(s, id);
    var s' := TaskNext(s, id, c);
    forall k | k in s'.tasks ensures TaskInv(s', k) {
      assert TaskInv(s, k);
    }
  }

  lemma TaskStepKeepsInv(s: State, id: nat, c: Choice)
    requires Inv(s) && TaskEnabled(s, id)
    ensures Inv(TaskNext(s, id, c))
  {
    var pc := s.tasks[id].pc;
    if pc.Writing? && pc.step == Take { TakeKeepsInv(s, id, c); }
    else if pc.Writing? && pc.step == Send { SendKeepsInv(s, id, c); }
    else if pc.Unhooking? { UnhookKeepsInv(s, id, c); }
    else if pc.Deregistering? || pc.FreeingArgs? { LastStepsKeepInv(s, id, c); }
    else { MoveKeepsInv(s, id, PcAfter(pc, s.closing, s.tasks[id].stop, s.insert.Terminator?, c)); }
  }

  lemma LockStepKeepsInv(s: State, a: Action)
    requires Inv(s) && Enabled(s, a)
    requires a.LockTaken? || a.LockReleased? || a.OthersLock? || a.OthersUnlock?
    ensures Inv(Next(s, a))
  {
    var s' := Next(s, a);
    forall k | k in s'.tasks ensures TaskInv(s', k) {
      assert TaskInv(s, k);
    }
  }

  lemma StartStepKeepsInv(s: State, a: Action)
    requires Inv(s) && Enabled(s, a) && Allowed(s, a)
    requires a.StartCommand? || a.StoreData? || a.StoreSentinel? || a.Instantiate? || a.FailDelete?
    ensures Inv(Next(s, a))
  {
    var s' := Next(s, a);
    forall k | k in s'.tasks ensures TaskInv(s', k) {
      if k in s.tasks { assert TaskInv(s, k); }
    }
  }

  lemma InputStepKeepsInv(s: State, a: Action)
    requires Inv(s) && Enabled(s, a) && Allowed(s, a)
    requires a.TestInsert? || a.FetchHandler? || a.FetchData? || a.StoreStop? || a.RegisterOther? || a.DeregisterOther?
    ensures Inv(Next(s, a))
  {
    var s' := Next(s, a);
    forall k | k in s'.tasks ensures TaskInv(s', k) {
      assert TaskInv(s, k);
    }
  }

  lemma CloseStepKeepsInv(s: State, a: Action)
    requires Inv(s) && Enabled(s, a)
    requires a.Teardown? || a.CloseConsole? || a.MarkClosing? || a.CloseReturns? || a.ReapConsoles?
    ensures Inv(Next(s, a))
  {
    var s' := Next(s, a);
    forall k | k in s'.tasks ensures TaskInv(s', k) {
      assert TaskInv(s, k);
    }
  }

  lemma RoundStepKeepsInv(s: State)
    requires Inv(s) && Enabled(s, RoundStep)
    ensures Inv(Next(s, RoundStep))
  {
    var s' := Next(s, RoundStep);
    forall k | k in s'.tasks ensures TaskInv(s', k) {
      assert TaskInv(s, k);
    }
  }

  lemma StepKeepsInv(s: State, a: Action)
    requires Inv(s) && Enabled(s, a) && Allowed(s, a)
    ensures Inv(Next(s, a))
  {
    match a
    case TaskStep(id, c) => TaskStepKeepsInv(s, id, c);
    case LockTaken | LockReleased | OthersLock | OthersUnlock => LockStepKeepsInv(s, a);
    case StartCommand | StoreData | StoreSentinel | Instantiate(_) | FailDelete => StartStepKeepsInv(s, a);
    case TestInsert | FetchHandler | FetchData | StoreStop | RegisterOther | DeregisterOther => InputStepKeepsInv(s, a);
    case Teardown | CloseConsole | MarkClosing | CloseReturns | ReapConsoles => CloseStepKeepsInv(s, a);
    case RoundStep => RoundStepKeepsInv(s);
  }

  /** The invariant holds in every state of every run that obeys the rule. */
  lemma {:induction false} RunKeepsInv(s: State, acts: seq<Action>)
    requires Inv(s) && IsRuledRun(s, acts)
    ensures IsRun(s, acts) && Inv(Run(s, acts))
    decreases |acts|
  {
    if acts != [] {
      StepKeepsInv(s, acts[0]);
      RunKeepsInv(Next(s, acts[0]), acts[1..]);
    }
  }
}
