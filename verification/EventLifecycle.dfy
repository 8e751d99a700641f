/** What the queue and the timer pool guarantee over whole runs. */
module EventLifecycle {
  import opened Common
  import opened EventQueue

  ghost predicate IsRun(s: State, acts: seq<Action>)
    decreases |acts|
  {
    acts == [] || (Enabled(s, acts[0]) && IsRun(Next(s, acts[0]), acts[1..]))
  }

  ghost function Run(s: State, acts: seq<Action>): State
    requires IsRun(s, acts)
    decreases |acts|
  {
    if acts == [] then s else Run(Next(s, acts[0]), acts[1..])
  }

  lemma {:induction false} RunKeepsInv(s: State, acts: seq<Action>)
    requires Inv(s) && IsRun(s, acts)
    ensures Inv(Run(s, acts))
    decreases |acts|
  {
    if acts != [] {
      StepKeepsInv(s, acts[0]);
      RunKeepsInv(Next(s, acts[0]), acts[1..]);
    }
  }

  /** Can some run lead from `s` to `t`? */
  ghost predicate Leads(s: State, t: State) {
    exists acts :: IsRun(s, acts) && Run(s, acts) == t
  }

  lemma {:induction false} LeadsAlong(s: State, acts: seq<Action>, a: Action)
    requires IsRun(s, acts) && Enabled(Run(s, acts), a)
    ensures IsRun(s, acts + [a]) && Run(s, acts + [a]) == Next(Run(s, acts), a)
    decreases |acts|
  {
    if acts == [] {
      assert [a][1..] == [];
      assert IsRun(Next(s, a), []) && acts + [a] == [a];
    } else {
      LeadsAlong(Next(s, acts[0]), acts[1..], a);
      assert (acts + [a])[1..] == acts[1..] + [a];
    }
  }

  /** A state the system reaches without aborting. */
  ghost predicate Reachable(cap: nat, s: State) {
    !s.aborted && Leads(Init(cap), s)
  }

  lemma InitInv(cap: nat)
    ensures Inv(Init(cap))
  {
    forall id: nat ensures Owned(Init(cap), id) { }
  }

  lemma ReachableInv(cap: nat, s: State)
    requires Reachable(cap, s)
    ensures Inv(s)
  {
    var acts :| IsRun(Init(cap), acts) && Run(Init(cap), acts) == s;
    InitInv(cap);
    RunKeepsInv(Init(cap), acts);
  }

  /** Every signal ever raised has been completed exactly once and is nowhere, or
      has not been completed and is in exactly one place: the queue, a timer, or
      the event task's hands. */
  lemma CompletedOnceOrOwnedOnce(cap: nat, s: State, id: nat)
    requires Reachable(cap, s) && id < s.nextId
    ensures Completions(Story(s.trace, id))
         + InQueue(s.queue, id) + InTimers(s.timers, id) + InHand(s, id) == 1
  {
    ReachableInv(cap, s);
    assert Owned(s, id);
    StoryCompletions(Story(s.trace, id));
  }

  lemma StoryCompletions(story: seq<What>)
    ensures forall m :: story == Handled(m) || story == Bare(m) ==> Completions(story) == 1
    ensures forall m, next :: IsSignal(m) && story == Partial(m, next) ==> Completions(story) == 0
  {
    assert [Pre, Callbacks, Post, Free][..3] == [Pre, Callbacks, Post];
    assert [Pre, Callbacks, Post][..2] == [Pre, Callbacks];
    assert [Pre, Callbacks][..1] == [Pre];
    assert [Callbacks, Done][..1] == [Callbacks];
    assert Completions([]) == 0;
    assert Completions([Pre]) == 0 && Completions([Callbacks]) == 0;
    assert Completions([Pre, Callbacks]) == 0;
    assert Completions([Pre, Callbacks, Post]) == 0;
  }

  /** However often and whenever timer callbacks run, a timer is marked active
      exactly while it holds a payload, and the pool has at most one timer more
      than there ever were delayed signals pending together. */
  lemma TimerPool(cap: nat, s: State)
    requires Reachable(cap, s)
    ensures forall t | 0 <= t < |s.timers| :: s.timers[t].active <==> s.timers[t].payload.Some?
    ensures |s.timers| <= s.high + 1
  {
    ReachableInv(cap, s);
    forall t | 0 <= t < |s.timers| ensures s.timers[t].active <==> s.timers[t].payload.Some? {
      assert TimerInv(s.timers[t]);
    }
  }

  function Max(a: nat, b: nat): nat { if a > b then a else b }

  /** A step raises the mark to the number of payloads pending after it. */
  lemma StepRaisesMark(s: State, a: Action)
    requires Enabled(s, a) && Active(s.timers) <= s.high
    ensures Next(s, a).high == Max(s.high, Active(Next(s, a).timers))
  {
    match a
    case TimerFires(t) => TimersUpdate(s.timers, t, Timer(None, false), 0);
    case RaiseLater(_, _, _, _) =>
      var t := FirstIdle(s.timers);
      var pool := WithIdle(s.timers);
      TimersAppend(s.timers, Timer(None, false), 0);
      TimersUpdate(pool, t, pool[t].(payload := None), 0);
    case _ =>
  }

  /** The largest number of payloads pending together in the states of a run. */
  ghost function Peak(s: State, acts: seq<Action>): nat
    requires IsRun(s, acts)
    decreases |acts|
  {
    if acts == [] then Active(s.timers) else Max(Active(s.timers), Peak(Next(s, acts[0]), acts[1..]))
  }

  lemma {:induction false} MarkIsPeak(s: State, acts: seq<Action>)
    requires IsRun(s, acts) && Active(s.timers) <= s.high
    ensures Run(s, acts).high == Max(s.high, Peak(s, acts))
    decreases |acts|
  {
    if acts != [] {
      StepRaisesMark(s, acts[0]);
      MarkIsPeak(Next(s, acts[0]), acts[1..]);
    }
  }

  lemma {:induction false} PeakIsMaximum(s: State, acts: seq<Action>)
    requires IsRun(s, acts)
    ensures forall k | 0 <= k <= |acts| :: IsRun(s, acts[..k]) && Active(Run(s, acts[..k]).timers) <= Peak(s, acts)
    ensures exists k :: 0 <= k <= |acts| && IsRun(s, acts[..k]) && Active(Run(s, acts[..k]).timers) == Peak(s, acts)
    decreases |acts|
  {
    if acts == [] {
      assert acts[..0] == [];
    } else {
      var t, rest := Next(s, acts[0]), acts[1..];
      PeakIsMaximum(t, rest);
      assert acts[..0] == [];
      forall k | 0 <= k <= |acts| ensures IsRun(s, acts[..k]) && Active(Run(s, acts[..k]).timers) <= Peak(s, acts) {
        if k > 0 { PrefixSteps(s, acts, k); }
      }
      var j :| 0 <= j <= |rest| && IsRun(t, rest[..j]) && Active(Run(t, rest[..j]).timers) == Peak(t, rest);
      PrefixSteps(s, acts, j + 1);
      assert Active(Run(s, acts[..0]).timers) == Active(s.timers);
    }
  }

  lemma PrefixSteps(s: State, acts: seq<Action>, k: nat)
    requires 0 < k <= |acts| && Enabled(s, acts[0]) && IsRun(Next(s, acts[0]), acts[1..][..k - 1])
    ensures IsRun(s, acts[..k]) && Run(s, acts[..k]) == Run(Next(s, acts[0]), acts[1..][..k - 1])
  {
    assert acts[..k][1..] == acts[1..][..k - 1];
  }

  /** `high` is the largest number of payloads that were ever pending together. */
  lemma HighWaterMark(cap: nat, acts: seq<Action>)
    requires IsRun(Init(cap), acts)
    ensures forall k | 0 <= k <= |acts| ::
      IsRun(Init(cap), acts[..k]) && Active(Run(Init(cap), acts[..k]).timers) <= Run(Init(cap), acts).high
    ensures exists k ::
      0 <= k <= |acts| && IsRun(Init(cap), acts[..k]) && Active(Run(Init(cap), acts[..k]).timers) == Run(Init(cap), acts).high
  {
    MarkIsPeak(Init(cap), acts);
    PeakIsMaximum(Init(cap), acts);
  }

  /** A payload stays in its timer until that timer fires. */
  lemma PayloadIsNeverOverwritten(s: State, a: Action, t: nat)
    requires Inv(s) && Enabled(s, a) && t < |s.timers| && s.timers[t].payload.Some?
    requires a != TimerFires(t)
    ensures t < |Next(s, a).timers| && Next(s, a).timers[t] == s.timers[t]
  {
    assert TimerInv(s.timers[t]);
  }

}
