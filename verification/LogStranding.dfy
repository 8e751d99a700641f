/**
 Which references to log messages get lost, exactly.

 Two steps delete a queue without looking at it: the file log task's last act, and
 the command that gives the input back once it has shown what was deferred.  A
 message queued in between is never freed.
 */
module LogStranding {
  import opened Common
  import opened LogFanout
  import opened LogLifetime

  /** Does the step lose a reference? */
  ghost predicate Strands(s: State, a: Action)
    requires Enabled(s, a)
  {
    exists k :: Occ(Next(s, a).stranded, k) > Occ(s.stranded, k)
  }

  /** A reference to `k` is lost exactly by deleting a queue that holds it. */
  lemma StrandsExactly(s: State, a: Action, k: nat)
    requires Enabled(s, a)
    ensures Occ(Next(s, a).stranded, k) > Occ(s.stranded, k) <==>
      || (a.FileDelete? && Occ(s.fileQueue.value, k) > 0)
      || (a.FlushDelete? && Occ(s.consoles[a.c].deferred.value, k) > 0)
  {
    match a
    case FlushDelete(c) => OccAppend(s.stranded, s.consoles[c].deferred.value, k);
    case FileDelete => OccAppend(s.stranded, s.fileQueue.value, k);
    case DeferSend(_) | FlushReceive(_) => DeferringFrame(s, a);
    case _ => OtherStepKeepsStranded(s, a);
  }

  lemma {:induction false} MsgOccurs(q: seq<Event>)
    ensures NoMsg(q) || exists k :: Occ(q, k) > 0
  {
    if q != [] {
      MsgOccurs(q[1..]);
      if q[0].Msg? {
        assert Occ(q, q[0].msg) > 0;
      } else if !NoMsg(q[1..]) {
        var k :| Occ(q[1..], k) > 0;
        assert Occ(q, k) > 0;
      }
    }
  }

  /** What a deletion loses. */
  lemma DeletionStrands(s: State, a: Action)
    requires Enabled(s, a) && (a.FileDelete? || a.FlushDelete?)
    ensures Strands(s, a) <==>
      !NoMsg(if a.FileDelete? then s.fileQueue.value else s.consoles[a.c].deferred.value)
  {
    var q := if a.FileDelete? then s.fileQueue.value else s.consoles[a.c].deferred.value;
    MsgOccurs(q);
    if Strands(s, a) {
      var k :| Occ(Next(s, a).stranded, k) > Occ(s.stranded, k);
      StrandsExactly(s, a, k);
      if NoMsg(q) { NoMsgNoOcc(q, k); }
    }
    if !NoMsg(q) {
      var k :| Occ(q, k) > 0;
      StrandsExactly(s, a, k);
    }
  }

  lemma Prepend(s: State, a: Action, acts: seq<Action>)
    requires Enabled(s, a) && IsRun(Next(s, a), acts)
    ensures IsRun(s, [a] + acts) && Run(s, [a] + acts) == Run(Next(s, a), acts)
  {
    assert ([a] + acts)[1..] == acts;
  }

  lemma {:induction false} Extend(s: State, acts: seq<Action>, a: Action)
    requires IsRun(s, acts) && Enabled(Run(s, acts), a)
    ensures IsRun(s, acts + [a]) && Run(s, acts + [a]) == Next(Run(s, acts), a)
    decreases |acts|
  {
    if acts == [] {
      Prepend(s, a, []);
      assert [] + [a] == [a] + [];
    } else {
      Extend(Next(s, acts[0]), acts[1..], a);
      assert (acts + [a])[1..] == acts[1..] + [a];
    }
  }

  /** A state that some run leads to. */
  ghost predicate Reached(cap: nat, s: State) {
    exists acts :: IsRun(Init(cap), acts) && Run(Init(cap), acts) == s
  }

  lemma ReachedInit(cap: nat)
    ensures Reached(cap, Init(cap))
  {
    assert IsRun(Init(cap), []) && Run(Init(cap), []) == Init(cap);
  }

  lemma ReachedNext(cap: nat, s: State, a: Action) returns (t: State)
    requires Reached(cap, s) && Enabled(s, a)
    ensures t == Next(s, a) && Reached(cap, t)
  {
    var acts :| IsRun(Init(cap), acts) && Run(Init(cap), acts) == s;
    Extend(Init(cap), acts, a);
    t := Next(s, a);
  }

  lemma {:induction false} SetInOrder(rs: set<Receiver>) returns (order: seq<Receiver>)
    ensures |order| == |rs| && (forall r | r in order :: r in rs)
    ensures forall i, j | 0 <= i < j < |order| :: order[i] != order[j]
  {
    if rs == {} {
      order := [];
    } else {
      var r :| r in rs;
      var rest := SetInOrder(rs - {r});
      order := [r] + rest;
    }
  }

  /** A `Log` call may come to a registered receiver first. */
  lemma FirstInOrder(s: State, r: Receiver) returns (order: seq<Receiver>)
    requires s.fan.NoFan? && r in Receivers(s)
    ensures order != [] && order[0] == r && Enabled(s, LogBegin(order))
  {
    var rest := SetInOrder(Receivers(s) - {r});
    order := [r] + rest;
  }

  /** A hand-over to somebody else. */
  lemma HandOverFrame(s: State, c: nat)
    requires Enabled(s, HandOver)
    ensures var t := Next(s, HandOver);
      && t.cap == s.cap && t.fan == Fan(s.fan.msg, s.fan.left[1..]) && t.fileRegistered == s.fileRegistered
      && |t.consoles| == |s.consoles| && t.fileTask == s.fileTask
      && (s.fan.left[0] != ToFile ==> t.fileQueue == s.fileQueue)
      && (s.fan.left[0] != ToConsole(c) && c < |s.consoles| ==> t.consoles[c] == s.consoles[c])
  {
    ReleaseFrame(s.(fan := Fan(s.fan.msg, s.fan.left[1..])), s.fan.msg);
  }

  // ------------------------------------------------------ the file log task

  /** The file task has taken its last look at the queue and not yet deleted it. */
  ghost predicate FileEnds(s: State) {
    s.fileTask.Ending? && s.fileQueue.Some?
  }

  /** Some run loses a reference when the task deletes its queue. */
  ghost predicate FileCanStrand(s: State) {
    exists acts :: IsRun(s, acts) && FileDelete !in acts && FileEnds(Run(s, acts)) && Strands(Run(s, acts), FileDelete)
  }

  /** The queue holds a message, or has room for one while the task is still
      registered or still owed a hand-over. */
  ghost predicate FileAtRisk(s: State)
    requires FileEnds(s)
  {
    || !NoMsg(s.fileQueue.value)
    || (|s.fileQueue.value| < s.cap && (s.fileRegistered || (s.fan.Fan? && ToFile in s.fan.left)))
  }

  lemma ShowStepFrame(s: State, a: Action)
    requires Enabled(s, a) && (a.Display? || a.FlushDisplay? || a.Drop?)
    ensures var t := Next(s, a);
      && t.cap == s.cap && t.fan == s.fan && t.fileRegistered == s.fileRegistered
      && t.fileTask == s.fileTask && t.fileQueue == s.fileQueue
      && |t.consoles| == |s.consoles| && (forall k | 0 <= k < |s.consoles| && k != a.c :: t.consoles[k] == s.consoles[k])
  {
  }

  /** Without the risk there is none later: until the deletion nothing adds room
      or registers the task again. */
  lemma NoRiskLasts(s: State, a: Action)
    requires FileEnds(s) && !FileAtRisk(s) && Enabled(s, a) && !a.FileDelete?
    ensures FileEnds(Next(s, a)) && !FileAtRisk(Next(s, a))
  {
    match a
    case HandOver =>
      HandOverFrame(s, 0);
      assert s.fan.left[0] in s.fan.left;
      assert forall r | r in s.fan.left[1..] :: r in s.fan.left;
    case DeferSend(_) | FlushReceive(_) => DeferringFrame(s, a);
    case Display(_) | FlushDisplay(_) | Drop(_) => ShowStepFrame(s, a);
    case LogBegin(_) => LoggedNoRisk(s, a);
    case LogEnd | StartFile | StopFile | SendExit | FileReceive | FileWrite(_) | FileDrop | FileEmpty =>
    case _ => ConsoleNoRisk(s, a);
  }

  lemma LoggedNoRisk(s: State, a: Action)
    requires FileEnds(s) && !FileAtRisk(s) && Enabled(s, a) && a.LogBegin?
    ensures FileEnds(Next(s, a)) && !FileAtRisk(Next(s, a))
  {
  }

  lemma ConsoleNoRisk(s: State, a: Action)
    requires FileEnds(s) && !FileAtRisk(s) && Enabled(s, a)
    requires a.Receive? || a.OpenConsole? || a.Input? || a.TakeInput? || a.GiveInput? || a.FlushBegin? || a.FlushEmpty? || a.FlushDelete?
          || a.Close? || a.Deregister? || a.Detach? || a.Drained?
    ensures FileEnds(Next(s, a)) && !FileAtRisk(Next(s, a))
  {
  }

  lemma {:induction false} NoRiskNoLoss(s: State, acts: seq<Action>)
    requires FileEnds(s) && !FileAtRisk(s) && IsRun(s, acts) && FileDelete !in acts
    ensures FileEnds(Run(s, acts)) && NoMsg(Run(s, acts).fileQueue.value)
    decreases |acts|
  {
    if acts != [] {
      assert acts[0] in acts;
      NoRiskLasts(s, acts[0]);
      NoRiskNoLoss(Next(s, acts[0]), acts[1..]);
    }
  }

  /** How a message gets into the queue that nobody will read again. */
  lemma {:induction false} RiskComesTrue(s: State) returns (acts: seq<Action>)
    requires FileEnds(s) && FileAtRisk(s)
    ensures IsRun(s, acts) && FileDelete !in acts && FileEnds(Run(s, acts)) && !NoMsg(Run(s, acts).fileQueue.value)
    decreases if s.fan.Fan? then 1 + |s.fan.left| else 0
  {
    if !NoMsg(s.fileQueue.value) {
      acts := [];
    } else if s.fan.NoFan? {
      var order := FirstInOrder(s, ToFile);
      var s1 := Next(s, LogBegin(order));
      HandOverFrame(s1, 0);
      QueuedForFile(s1);
      Prepend(s1, HandOver, []);
      Prepend(s, LogBegin(order), [HandOver] + []);
      acts := [LogBegin(order)] + ([HandOver] + []);
    } else if s.fan.left == [] {
      acts := RiskComesTrue(Next(s, LogEnd));
      Prepend(s, LogEnd, acts);
      acts := [LogEnd] + acts;
    } else {
      HandOverFrame(s, 0);
      if s.fan.left[0] == ToFile { QueuedForFile(s); }
      acts := RiskComesTrue(Next(s, HandOver));
      Prepend(s, HandOver, acts);
      acts := [HandOver] + acts;
    }
  }

  lemma QueuedForFile(s: State)
    requires FileEnds(s) && Enabled(s, HandOver) && s.fan.left[0] == ToFile && |s.fileQueue.value| < s.cap
    ensures FileEnds(Next(s, HandOver)) && !NoMsg(Next(s, HandOver).fileQueue.value)
  {
    assert Msg(s.fan.msg) in Next(s, HandOver).fileQueue.value;
  }

  /** When the ending file task can lose a message, exactly. */
  lemma FileStrandsIff(s: State)
    requires FileEnds(s)
    ensures FileCanStrand(s) <==> FileAtRisk(s)
  {
    if FileAtRisk(s) {
      var acts := RiskComesTrue(s);
      DeletionStrands(Run(s, acts), FileDelete);
    }
    if FileCanStrand(s) && !FileAtRisk(s) {
      var acts :| IsRun(s, acts) && FileDelete !in acts && FileEnds(Run(s, acts)) && Strands(Run(s, acts), FileDelete);
      NoRiskNoLoss(s, acts);
      DeletionStrands(Run(s, acts), FileDelete);
    }
  }

  // ------------------------------------------------- the flush of a console

  /** The flush has seen the deferred queue empty and not yet deleted it. */
  ghost predicate FlushEnds(s: State, c: nat) {
    Enabled(s, FlushDelete(c))
  }

  ghost predicate Undisturbed(acts: seq<Action>, c: nat) {
    FlushDelete(c) !in acts && TakeInput(c) !in acts
  }

  /** Some run during which no command takes the console's input anew loses a
      reference when the flush deletes the deferred queue. */
  ghost predicate FlushCanStrand(s: State, c: nat) {
    exists acts ::
      && IsRun(s, acts) && Undisturbed(acts, c)
      && FlushEnds(Run(s, acts), c) && Strands(Run(s, acts), FlushDelete(c))
  }

  /** The deferred queue holds a message, or the console thread is on its way there
      with one, or a command has the input of a console that has a queue. */
  ghost predicate FlushAtRisk(s: State, c: nat)
    requires FlushEnds(s, c)
  {
    var console := s.consoles[c];
    !NoMsg(console.deferred.value) || console.sending.Some? || (console.insert && console.queue.Some?)
  }

  /** A console is registered and ready as long as it lives. */
  ghost predicate Listening(s: State) {
    forall c | 0 <= c < |s.consoles| && s.consoles[c].life.Alive? :: s.consoles[c].ready && s.consoles[c].registered
  }

  lemma StepListening(s: State, a: Action)
    requires Enabled(s, a) && Listening(s)
    ensures Listening(Next(s, a))
  {
    if a.DeferSend? || a.FlushReceive? { DeferringFrame(s, a); }
    else if a.Display? || a.FlushDisplay? || a.Drop? { ShowStepListening(s, a); }
    else if a.LogBegin? || a.LogEnd? || a.StartFile? || a.StopFile? || a.SendExit?
         || a.FileReceive? || a.FileWrite? || a.FileDrop? || a.FileEmpty? || a.FileDelete? { OtherFrame(s, a); }
    else { OtherListening(s, a); }
  }

  lemma ShowStepListening(s: State, a: Action)
    requires Enabled(s, a) && Listening(s) && (a.Display? || a.FlushDisplay? || a.Drop?)
    ensures Listening(Next(s, a))
  {
  }

  lemma OtherListening(s: State, a: Action)
    requires Enabled(s, a) && Listening(s)
    requires a.Receive? || a.HandOver? || a.OpenConsole? || a.Input? || a.TakeInput? || a.GiveInput? || a.FlushBegin? || a.FlushEmpty?
          || a.FlushDelete? || a.Close? || a.Deregister? || a.Detach? || a.Drained?
    ensures Listening(Next(s, a))
  {
  }

  lemma {:induction false} AlwaysListening(s: State, acts: seq<Action>)
    requires IsRun(s, acts) && Listening(s)
    ensures Listening(Run(s, acts))
    decreases |acts|
  {
    if acts != [] {
      StepListening(s, acts[0]);
      AlwaysListening(Next(s, acts[0]), acts[1..]);
    }
  }

  /** What makes a console's flush safe. */
  ghost predicate Calm(cs: seq<Console>, c: nat) {
    && c < |cs| && cs[c].life.Alive? && cs[c].flush.Deleting? && cs[c].deferred.Some?
    && NoMsg(cs[c].deferred.value) && cs[c].sending.None? && !(cs[c].insert && cs[c].queue.Some?)
  }

  /** Without the risk there is none later, whatever anybody does. */
  lemma CalmLasts(s: State, c: nat, a: Action)
    requires Calm(s.consoles, c) && Enabled(s, a) && a != FlushDelete(c) && a != TakeInput(c)
    ensures Calm(Next(s, a).consoles, c)
  {
    if a.HandOver? { HandedOverCalm(s, c); }
    else if a.DeferSend? || a.FlushReceive? { DeferringFrame(s, a); }
    else if a.Display? || a.FlushDisplay? || a.Drop? { ShownCalm(s, c, a); }
    else if a.LogBegin? || a.LogEnd? || a.StartFile? || a.StopFile? || a.SendExit?
         || a.FileReceive? || a.FileWrite? || a.FileDrop? || a.FileEmpty? || a.FileDelete? { OtherFrame(s, a); }
    else { ConsoleCalm(s, c, a); }
  }

  lemma HandedOverCalm(s: State, c: nat)
    requires Calm(s.consoles, c) && Enabled(s, HandOver)
    ensures Calm(Next(s, HandOver).consoles, c)
  {
    ReleaseFrame(s.(fan := Fan(s.fan.msg, s.fan.left[1..])), s.fan.msg);
  }

  lemma ShownCalm(s: State, c: nat, a: Action)
    requires Calm(s.consoles, c) && Enabled(s, a) && (a.Display? || a.FlushDisplay? || a.Drop?)
    ensures Calm(Next(s, a).consoles, c)
  {
    ShowStepFrame(s, a);
  }

  lemma OtherFrame(s: State, a: Action)
    requires Enabled(s, a)
    requires a.LogBegin? || a.LogEnd? || a.StartFile? || a.StopFile? || a.SendExit?
          || a.FileReceive? || a.FileWrite? || a.FileDrop? || a.FileEmpty? || a.FileDelete?
    ensures Next(s, a).consoles == s.consoles
  {
  }

  lemma ConsoleCalm(s: State, c: nat, a: Action)
    requires Calm(s.consoles, c) && Enabled(s, a) && a != FlushDelete(c) && a != TakeInput(c)
    requires a.Receive? || a.OpenConsole? || a.Input? || a.TakeInput? || a.GiveInput? || a.FlushBegin? || a.FlushEmpty? || a.FlushDelete?
          || a.Close? || a.Deregister? || a.Detach? || a.Drained?
    ensures Calm(Next(s, a).consoles, c)
  {
  }

  lemma {:induction false} CalmNoLoss(s: State, c: nat, acts: seq<Action>)
    requires Calm(s.consoles, c) && IsRun(s, acts) && Undisturbed(acts, c)
    ensures Calm(Run(s, acts).consoles, c)
    decreases |acts|
  {
    if acts != [] {
      assert acts[0] in acts;
      CalmLasts(s, c, acts[0]);
      CalmNoLoss(Next(s, acts[0]), c, acts[1..]);
    }
  }

  /** The next entry of a console whose input a command has. */
  lemma ReceivedDuringFlush(s: State, c: nat)
    requires FlushEnds(s, c) && Enabled(s, Receive(c)) && s.consoles[c].insert
    ensures var t := Next(s, Receive(c)); var q := s.consoles[c].queue.value;
      && FlushEnds(t, c) && t.fan == s.fan && t.cap == s.cap
      && t.consoles[c] ==
           s.consoles[c].(queue := Some(q[1..]), sending := if q[0].Msg? then Some(q[0].msg) else None)
  {
  }

  /** The message on its way arrives. */
  lemma SendingIsDeferred(s: State, c: nat) returns (acts: seq<Action>)
    requires FlushEnds(s, c) && s.consoles[c].sending.Some?
    ensures IsRun(s, acts) && Undisturbed(acts, c)
    ensures FlushEnds(Run(s, acts), c) && !NoMsg(Run(s, acts).consoles[c].deferred.value)
  {
    var console := s.consoles[c];
    DeferringFrame(s, DeferSend(c));
    DeferFrame(Put(s, c, console.(sending := None)), c, Msg(console.sending.value));
    DeferredLast(Put(s, c, console.(sending := None)), c, Msg(console.sending.value));
    Prepend(s, DeferSend(c), []);
    acts := [DeferSend(c)] + [];
  }

  lemma DeferredLast(s: State, c: nat, e: Event)
    requires c < |s.consoles| && e.Msg?
    ensures var t := Defer(s, c, e);
      c < |t.consoles| && t.consoles[c].deferred.Some? && !NoMsg(t.consoles[c].deferred.value)
  {
    var console := s.consoles[c];
    var d := if console.deferred.Some? then console.deferred.value else [];
    if !(|d| < s.cap || d == []) {
      var u := Put(s, c, console.(deferred := Some(d[1..] + [e])));
      assert e in u.consoles[c].deferred.value;
      if d[0].Msg? { ReleaseFrame(u, d[0].msg); }
    } else {
      assert e in d + [e];
    }
  }

  /** A hand-over to a console whose queue is empty. */
  lemma QueuedForConsole(s: State, c: nat)
    requires s.cap > 0 && FlushEnds(s, c) && Enabled(s, HandOver) && s.fan.left[0] == ToConsole(c)
    requires s.consoles[c].ready && s.consoles[c].queue == Some([])
    ensures var t := Next(s, HandOver);
      && FlushEnds(t, c) && t.cap == s.cap && t.fan == Fan(s.fan.msg, s.fan.left[1..])
      && t.consoles[c] == s.consoles[c].(queue := Some([Msg(s.fan.msg)]))
  {
    assert s.consoles[c].queue.value + [Msg(s.fan.msg)] == [Msg(s.fan.msg)];
  }

  /** One step towards a message in the deferred queue. */
  ghost function Towards(s: State, c: nat): Action
    requires FlushEnds(s, c) && s.consoles[c].queue.Some?
  {
    if s.consoles[c].hand.Some? then Display(c)
    else if s.consoles[c].queue.value != [] then Receive(c)
    else if s.fan.Fan? && s.fan.left != [] then HandOver
    else LogEnd
  }

  /** The steps still to be made before that message arrives. */
  ghost function Ahead(s: State, c: nat): nat
    requires FlushEnds(s, c) && s.consoles[c].queue.Some?
  {
    (if s.consoles[c].hand.Some? then 1 else 0) + |s.consoles[c].queue.value|
    + if s.fan.Fan? then 1 + 2 * |s.fan.left| else 0
  }

  ghost predicate Flooded(s: State, c: nat) {
    && s.cap > 0 && FlushEnds(s, c) && s.consoles[c].sending.None?
    && s.consoles[c].insert && s.consoles[c].queue.Some? && s.consoles[c].ready && s.consoles[c].registered
  }

  lemma TowardsIsNearer(s: State, c: nat)
    requires Flooded(s, c) && !(s.fan.NoFan? && s.consoles[c].queue.value == [] && s.consoles[c].hand.None?)
    ensures Enabled(s, Towards(s, c))
    ensures var t := Next(s, Towards(s, c));
      FlushEnds(t, c) && (t.consoles[c].sending.Some? || (Flooded(t, c) && Ahead(t, c) < Ahead(s, c)))
  {
    match Towards(s, c)
    case Display(_) =>
      ReleaseFrame(Put(s, c, s.consoles[c].(hand := None)), s.consoles[c].hand.value);
    case Receive(_) => ReceivedDuringFlush(s, c);
    case HandOver =>
      HandOverFrame(s, c);
      if s.fan.left[0] == ToConsole(c) { QueuedForConsole(s, c); }
    case _ =>
  }

  lemma LoggedToConsole(s: State, c: nat) returns (acts: seq<Action>)
    requires Flooded(s, c) && s.fan.NoFan? && s.consoles[c].queue.value == [] && s.consoles[c].hand.None?
    ensures IsRun(s, acts) && Undisturbed(acts, c)
    ensures FlushEnds(Run(s, acts), c) && !NoMsg(Run(s, acts).consoles[c].deferred.value)
  {
    var order := FirstInOrder(s, ToConsole(c));
    var s1 := Next(s, LogBegin(order));
    QueuedForConsole(s1, c);
    acts := QueuedIsDeferred(Next(s1, HandOver), c);
    Prepend(s1, HandOver, acts);
    acts := [HandOver] + acts;
    Prepend(s, LogBegin(order), acts);
    acts := [LogBegin(order)] + acts;
  }

  lemma QueuedIsDeferred(s: State, c: nat) returns (acts: seq<Action>)
    requires Flooded(s, c) && Enabled(s, Receive(c)) && s.consoles[c].queue.value[0].Msg?
    ensures IsRun(s, acts) && Undisturbed(acts, c)
    ensures FlushEnds(Run(s, acts), c) && !NoMsg(Run(s, acts).consoles[c].deferred.value)
  {
    ReceivedDuringFlush(s, c);
    acts := SendingIsDeferred(Next(s, Receive(c)), c);
    Prepend(s, Receive(c), acts);
    acts := [Receive(c)] + acts;
  }

  /** How a message gets into the deferred queue behind the flush's back. */
  lemma {:induction false} FloodComes(s: State, c: nat) returns (acts: seq<Action>)
    requires Flooded(s, c)
    ensures IsRun(s, acts) && Undisturbed(acts, c)
    ensures FlushEnds(Run(s, acts), c) && !NoMsg(Run(s, acts).consoles[c].deferred.value)
    decreases Ahead(s, c)
  {
    if s.fan.NoFan? && s.consoles[c].queue.value == [] && s.consoles[c].hand.None? {
      acts := LoggedToConsole(s, c);
    } else {
      TowardsIsNearer(s, c);
      var a := Towards(s, c);
      var t := Next(s, a);
      var rest;
      if t.consoles[c].sending.Some? { rest := SendingIsDeferred(t, c); } else { rest := FloodComes(t, c); }
      Prepend(s, a, rest);
      acts := [a] + rest;
    }
  }

  /** When a flush at its end can lose a message, exactly, in every state that is
      reached. */
  lemma FlushStrandsIff(cap: nat, s: State, c: nat)
    requires cap > 0 && Reached(cap, s) && FlushEnds(s, c)
    ensures FlushCanStrand(s, c) <==> FlushAtRisk(s, c)
  {
    var before :| IsRun(Init(cap), before) && Run(Init(cap), before) == s;
    RunKeepsInv(Init(cap), before);
    AlwaysListening(Init(cap), before);
    if FlushAtRisk(s, c) {
      var acts := [];
      if NoMsg(s.consoles[c].deferred.value) {
        if s.consoles[c].sending.Some? { acts := SendingIsDeferred(s, c); } else { acts := FloodComes(s, c); }
      }
      DeletionStrands(Run(s, acts), FlushDelete(c));
    }
    if FlushCanStrand(s, c) && !FlushAtRisk(s, c) {
      var acts :| IsRun(s, acts) && Undisturbed(acts, c)
               && FlushEnds(Run(s, acts), c) && Strands(Run(s, acts), FlushDelete(c));
      CalmNoLoss(s, c, acts);
      DeletionStrands(Run(s, acts), FlushDelete(c));
    }
  }

  /** So a command must not take the input then: of a console with a queue, it puts
      a message at risk. */
  lemma TakingInputStrands(cap: nat, s: State, c: nat)
    requires cap > 0 && Reached(cap, s) && FlushEnds(s, c) && s.consoles[c].queue.Some?
    ensures Enabled(s, TakeInput(c)) && FlushCanStrand(Next(s, TakeInput(c)), c)
  {
    var t := ReachedNext(cap, s, TakeInput(c));
    FlushStrandsIff(cap, t, c);
  }

  // ---------------------------------------------- a flush that does not end

  /** A command is emptying the deferred queue. */
  ghost predicate Flushing(s: State, c: nat) {
    Has(s, c, Alive) && s.consoles[c].flush.Polling? && s.consoles[c].deferred.Some?
  }

  /** Some run during which the console's input is not given back finds the deferred
      queue empty. */
  ghost predicate FlushCanEnd(s: State, c: nat) {
    exists acts :: IsRun(s, acts) && GiveInput(c) !in acts && Enabled(Run(s, acts), FlushEmpty(c))
  }

  /** What is taken from the queue is put back into it. */
  ghost predicate Stuck(s: State, c: nat) {
    Flushing(s, c) && s.consoles[c].insert && !NoMsg(s.consoles[c].deferred.value)
  }

  lemma StuckDeferring(s: State, c: nat, a: Action)
    requires Stuck(s, c) && Enabled(s, a) && (a.DeferSend? || a.FlushReceive?)
    ensures Stuck(Next(s, a), c)
  {
    DeferringFrame(s, a);
    if a.c == c {
      var console := s.consoles[c];
      if a.DeferSend? {
        DeferFrame(Put(s, c, console.(sending := None)), c, Msg(console.sending.value));
        DeferredLast(Put(s, c, console.(sending := None)), c, Msg(console.sending.value));
      } else {
        var q := console.deferred.value;
        var t := Put(s, c, console.(deferred := Some(q[1..])));
        if q[0].Msg? {
          DeferFrame(t, c, q[0]);
          DeferredLast(t, c, q[0]);
        } else {
          assert forall e | e in q :: e == q[0] || e in q[1..];
        }
      }
    }
  }

  lemma StuckOther(s: State, c: nat, a: Action)
    requires Stuck(s, c) && Enabled(s, a) && a != GiveInput(c)
    requires a.Receive? || a.OpenConsole? || a.Input? || a.TakeInput? || a.GiveInput? || a.FlushBegin? || a.FlushEmpty? || a.FlushDelete?
          || a.Close? || a.Deregister? || a.Detach? || a.Drained?
    ensures Stuck(Next(s, a), c)
  {
  }

  lemma StuckShow(s: State, c: nat, a: Action)
    requires Stuck(s, c) && Enabled(s, a) && (a.Display? || a.FlushDisplay? || a.Drop?)
    ensures Stuck(Next(s, a), c)
  {
    var console := s.consoles[a.c];
    if a.Display? {
      ReleaseFrame(Put(s, a.c, console.(hand := None)), console.hand.value);
    } else {
      ShowStepFrame(s, a);
    }
  }

  lemma StuckHandOver(s: State, c: nat)
    requires Stuck(s, c) && Enabled(s, HandOver)
    ensures Stuck(Next(s, HandOver), c)
  {
    ReleaseFrame(s.(fan := Fan(s.fan.msg, s.fan.left[1..])), s.fan.msg);
  }

  lemma StuckLasts(s: State, c: nat, a: Action)
    requires Stuck(s, c) && Enabled(s, a) && a != GiveInput(c)
    ensures Stuck(Next(s, a), c)
  {
    if a.HandOver? { StuckHandOver(s, c); }
    else if a.DeferSend? || a.FlushReceive? { StuckDeferring(s, c, a); }
    else if a.Display? || a.FlushDisplay? || a.Drop? { StuckShow(s, c, a); }
    else if a.LogBegin? || a.LogEnd? || a.StartFile? || a.StopFile? || a.SendExit?
         || a.FileReceive? || a.FileWrite? || a.FileDrop? || a.FileEmpty? || a.FileDelete? { OtherFrame(s, a); }
    else { StuckOther(s, c, a); }
  }

  lemma {:induction false} StuckForEver(s: State, c: nat, acts: seq<Action>)
    requires Stuck(s, c) && IsRun(s, acts) && GiveInput(c) !in acts
    ensures Stuck(Run(s, acts), c)
    decreases |acts|
  {
    if acts != [] {
      assert acts[0] in acts;
      StuckLasts(s, c, acts[0]);
      StuckForEver(Next(s, acts[0]), c, acts[1..]);
    }
  }

  lemma {:induction false} FlushEnding(s: State, c: nat) returns (acts: seq<Action>)
    requires Flushing(s, c) && (s.consoles[c].insert ==> NoMsg(s.consoles[c].deferred.value))
    ensures IsRun(s, acts) && GiveInput(c) !in acts && Enabled(Run(s, acts), FlushEmpty(c))
    decreases |s.consoles[c].deferred.value|
  {
    var q := s.consoles[c].deferred.value;
    if q == [] {
      acts := [];
    } else if !q[0].Msg? {
      acts := FlushEnding(Next(s, FlushReceive(c)), c);
      Prepend(s, FlushReceive(c), acts);
      acts := [FlushReceive(c)] + acts;
    } else {
      assert q[0] in q;
      var t := Next(s, FlushReceive(c));
      ReleaseFrame(Put(t, c, t.consoles[c].(flush := Polling)), t.consoles[c].flush.msg);
      acts := FlushEnding(Next(t, FlushDisplay(c)), c);
      Prepend(t, FlushDisplay(c), acts);
      acts := [FlushDisplay(c)] + acts;
      Prepend(s, FlushReceive(c), acts);
      acts := [FlushReceive(c)] + acts;
    }
  }

  /** A flush can come to its end while the input stays as it is exactly if no command
      has the input or there is no message to put back. */
  lemma FlushCanEndIff(s: State, c: nat)
    requires Flushing(s, c)
    ensures FlushCanEnd(s, c) <==> !s.consoles[c].insert || NoMsg(s.consoles[c].deferred.value)
  {
    if Stuck(s, c) {
      if FlushCanEnd(s, c) {
        var acts :| IsRun(s, acts) && GiveInput(c) !in acts && Enabled(Run(s, acts), FlushEmpty(c));
        StuckForEver(s, c, acts);
      }
    } else {
      var acts := FlushEnding(s, c);
    }
  }

  // ------------------------------------------------- both are reached

  lemma OneReceiver(s: State, r: Receiver)
    requires s.fan.NoFan? && Receivers(s) == {r}
    ensures Enabled(s, LogBegin([r]))
  {
  }

  /** The file task comes to its end while registered, by a write that fails. */
  lemma SelfExitIsReached(cap: nat) returns (s: State)
    requires cap > 0
    ensures Reached(cap, s) && FileEnds(s) && s.fileRegistered && s.fan.NoFan? && s.fileQueue == Some([])
    ensures FileCanStrand(s)
  {
    ReachedInit(cap);
    s := ReachedNext(cap, Init(cap), StartFile);
    OneReceiver(s, ToFile);
    s := ReachedNext(cap, s, LogBegin([ToFile]));
    s := ReachedNext(cap, s, HandOver);
    s := ReachedNext(cap, s, LogEnd);
    s := ReachedNext(cap, s, FileReceive);
    s := ReachedNext(cap, s, FileWrite(true));
    s := ReachedNext(cap, s, FileEmpty);
    FileStrandsIff(s);
  }

  /** A console as it is while messages come and go. */
  ghost function At(insert: bool, queue: seq<Event>, deferred: Option<seq<Event>>, sending: Option<nat>, flush: Flush): Console {
    Console(Alive, true, true, insert, Some(queue), deferred, None, sending, flush)
  }

  /** A message is logged to the console. */
  lemma OneLogged(cap: nat, s: State, deferred: Option<seq<Event>>) returns (t: State)
    requires cap > 0 && Reached(cap, s) && s.cap == cap && s.fan.NoFan? && !s.fileRegistered
    requires s.consoles == [At(true, [], deferred, None, NoFlush)]
    ensures Reached(cap, t) && t.cap == cap && t.fan.NoFan? && !t.fileRegistered && t.nextMsg == s.nextMsg + 1
    ensures t.consoles == [At(true, [], deferred, Some(s.nextMsg), NoFlush)]
  {
    OneReceiver(s, ToConsole(0));
    t := ReachedNext(cap, s, LogBegin([ToConsole(0)]));
    t := ReachedNext(cap, t, HandOver);
    var m := s.nextMsg;
    assert [] + [Msg(m)] == [Msg(m)] && [Msg(m)][1..] == [];
    assert t.consoles == [At(true, [Msg(m)], deferred, None, NoFlush)];
    t := ReachedNext(cap, t, LogEnd);
    t := ReachedNext(cap, t, Receive(0));
  }

  /** A message arrives at a new console while a command has its input, and is deferred. */
  lemma DeferredIsReached(cap: nat) returns (s: State)
    requires cap > 0
    ensures Reached(cap, s) && s.cap == cap && s.fan.NoFan? && !s.fileRegistered && s.nextMsg == 1
    ensures s.consoles == [At(true, [], Some([Msg(0)]), None, NoFlush)]
  {
    ReachedInit(cap);
    s := ReachedNext(cap, Init(cap), OpenConsole(true));
    s := ReachedNext(cap, s, TakeInput(0));
    assert s.consoles == [At(true, [], None, None, NoFlush)];
    s := OneLogged(cap, s, None);
    s := ReachedNext(cap, s, DeferSend(0));
    assert [] + [Msg(0)] == [Msg(0)];
  }

  /** The flush shows it and finds the queue empty. */
  lemma FlushFindsEmpty(cap: nat, s: State, sending: Option<nat>) returns (t: State)
    requires Reached(cap, s) && s.consoles == [At(true, [], Some([Msg(0)]), sending, NoFlush)]
    ensures Reached(cap, t) && t.consoles == [At(false, [], Some([]), sending, Deleting)]
  {
    t := ReachedNext(cap, s, GiveInput(0));
    t := ReachedNext(cap, t, FlushBegin(0));
    assert t.consoles == [At(false, [], Some([Msg(0)]), sending, Polling)];
    t := ReachedNext(cap, t, FlushReceive(0));
    assert [Msg(0)][1..] == [];
    t := ShownInFlush(cap, t, sending);
    t := ReachedNext(cap, t, FlushEmpty(0));
  }

  lemma ShownInFlush(cap: nat, s: State, sending: Option<nat>) returns (t: State)
    requires Reached(cap, s) && s.consoles == [At(false, [], Some([]), sending, Showing(0))]
    ensures Reached(cap, t) && t.consoles == [At(false, [], Some([]), sending, Polling)]
  {
    t := ReachedNext(cap, s, FlushDisplay(0));
    ReleaseFrame(Put(s, 0, s.consoles[0].(flush := Polling)), 0);
  }

  /** A command takes the input just then. */
  lemma LateInputIsReached(cap: nat) returns (s: State)
    requires cap > 0
    ensures Reached(cap, s) && s.consoles == [At(true, [], Some([]), None, Deleting)] && FlushCanStrand(s, 0)
  {
    s := DeferredIsReached(cap);
    s := FlushFindsEmpty(cap, s, None);
    TakingInputStrands(cap, s, 0);
    s := ReachedNext(cap, s, TakeInput(0));
  }

  /** The console thread has found the input taken, and sends its message only now. */
  lemma LateSendIsReached(cap: nat) returns (s: State)
    requires cap > 0
    ensures Reached(cap, s) && s.consoles == [At(false, [], Some([]), Some(1), Deleting)] && FlushCanStrand(s, 0)
  {
    s := DeferredIsReached(cap);
    s := OneLogged(cap, s, Some([Msg(0)]));
    s := FlushFindsEmpty(cap, s, Some(1));
    FlushStrandsIff(cap, s, 0);
  }

  /** A command flushes while another has the input. */
  lemma StuckIsReached(cap: nat) returns (s: State)
    requires cap > 0
    ensures Reached(cap, s) && Flushing(s, 0) && !FlushCanEnd(s, 0)
  {
    s := DeferredIsReached(cap);
    s := ReachedNext(cap, s, FlushBegin(0));
    assert Msg(0) in s.consoles[0].deferred.value;
    FlushCanEndIff(s, 0);
  }
}
