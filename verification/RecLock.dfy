/**
 The recursive mutex and the lock objects that take and give it.
 */
module RecLock {
  import opened Common

  /** A lock object: whether it holds the mutex, and which task took it. */
  datatype Lock = Lock(locked: bool, owner: nat)

  /** `depth` is the mutex's own recursion count, `count` the program's `m_count`. */
  datatype State = State(holder: Option<nat>, depth: nat, count: int, locks: map<nat, Lock>)

  datatype Action =
    | Construct(id: nat, task: nat)
    | Relock(id: nat, task: nat)
    | Move(from: nat, to: nat)
    | Release(id: nat, task: nat)
    | Destroy(id: nat, task: nat)

  const FREE := State(None, 0, 0, map[])

  predicate CanTake(s: State, task: nat) {
    s.holder == None || s.holder == Some(task)
  }

  /** `OvmsRecMutex::Lock`: granted unless another task holds the mutex for longer
      than the timeout. */
  function Taken(s: State, task: nat): State {
    if CanTake(s, task) then s.(holder := Some(task), depth := s.depth + 1, count := s.count + 1) else s
  }

  /** `OvmsRecMutex::Unlock`: does nothing for a task that does not hold it. */
  function Given(s: State, task: nat): State {
    if s.holder != Some(task) || s.depth == 0 then s
    else s.(holder := if s.depth == 1 then None else s.holder, depth := s.depth - 1, count := s.count - 1)
  }

  predicate IsLocked(s: State, id: nat) {
    id in s.locks && s.locks[id].locked
  }

  /** `OvmsRecMutexLock::Unlock`: afterwards the object counts as unlocked, whether or
      not the mutex was given back. */
  function Released(s: State, id: nat, task: nat): State {
    if !IsLocked(s, id) then s
    else var t := Given(s, task); t.(locks := t.locks[id := t.locks[id].(locked := false)])
  }

  function Next(s: State, a: Action): State {
    match a
    case Construct(id, task) =>
      if id in s.locks then s
      else var t := Taken(s, task); t.(locks := t.locks[id := Lock(CanTake(s, task), task)])
    case Relock(id, task) =>
      if id !in s.locks || s.locks[id].locked then s
      else var t := Taken(s, task); t.(locks := t.locks[id := Lock(CanTake(s, task), task)])
    case Move(from, to) =>
      if from !in s.locks || to in s.locks then s
      else s.(locks := s.locks[to := s.locks[from]][from := s.locks[from].(locked := false)])
    case Release(id, task) => Released(s, id, task)
    case Destroy(id, task) => var t := Released(s, id, task); t.(locks := t.locks - {id})
  }

  function Run(s: State, acts: seq<Action>): State
    decreases |acts|
  {
    if acts == [] then s else Run(Next(s, acts[0]), acts[1..])
  }

  /** The lock objects that count as holding the mutex. */
  function Live(s: State): set<nat> {
    set id | id in s.locks && s.locks[id].locked
  }

  /** A locked object is released by a task that does not hold the mutex. */
  predicate Stray(s: State, a: Action) {
    (a.Release? || a.Destroy?) && IsLocked(s, a.id) && s.holder != Some(a.task)
  }

  function Strays(s: State, acts: seq<Action>): nat
    decreases |acts|
  {
    if acts == [] then 0 else (if Stray(s, acts[0]) then 1 else 0) + Strays(Next(s, acts[0]), acts[1..])
  }

  /** The mutex is held as often as there are live objects, and `lost` times more;
      every live object was taken by the holder. */
  ghost predicate Inv(s: State, lost: nat) {
    && s.depth == s.count == |Live(s)| + lost
    && (s.holder == None <==> s.depth == 0)
    && (forall id | IsLocked(s, id) :: s.holder == Some(s.locks[id].owner))
  }

  lemma LiveWith(s: State, t: State, id: nat)
    requires !IsLocked(s, id) && Live(t) == Live(s) + {id}
    ensures |Live(t)| == |Live(s)| + 1
  {
    assert id !in Live(s);
  }

  lemma TakeKeeps(s: State, id: nat, task: nat, lost: nat)
    requires Inv(s, lost) && !IsLocked(s, id)
    ensures var t := Taken(s, task); Inv(t.(locks := t.locks[id := Lock(CanTake(s, task), task)]), lost)
  {
    var t := Taken(s, task).(locks := s.locks[id := Lock(CanTake(s, task), task)]);
    if CanTake(s, task) {
      assert Live(t) == Live(s) + {id};
      LiveWith(s, t, id);
    } else {
      assert Live(t) == Live(s);
    }
  }

  lemma ReleaseKeeps(s: State, id: nat, task: nat, lost: nat)
    requires Inv(s, lost)
    ensures Inv(Released(s, id, task), lost + if IsLocked(s, id) && s.holder != Some(task) then 1 else 0)
    ensures Live(Released(s, id, task)) == Live(s) - {id}
  {
    if IsLocked(s, id) {
      var t := Released(s, id, task);
      assert id in Live(s);
      assert Live(t) == Live(s) - {id};
      assert forall k | IsLocked(t, k) :: k in Live(t) && IsLocked(s, k) && t.locks[k] == s.locks[k];
    } else {
      assert id !in Live(s);
    }
  }

  lemma DestroyKeeps(s: State, id: nat, lost: nat)
    requires Inv(s, lost) && !IsLocked(s, id)
    ensures Inv(s.(locks := s.locks - {id}), lost)
  {
    var t := s.(locks := s.locks - {id});
    assert Live(t) == Live(s);
    assert forall k | IsLocked(t, k) :: IsLocked(s, k);
  }

  lemma MoveKeeps(s: State, from: nat, to: nat, lost: nat)
    requires Inv(s, lost) && from in s.locks && to !in s.locks
    ensures Inv(Next(s, Move(from, to)), lost)
  {
    var t := Next(s, Move(from, to));
    assert forall k | IsLocked(t, k) && k != to :: IsLocked(s, k) && k != from && t.locks[k] == s.locks[k];
    if s.locks[from].locked {
      assert from in Live(s) && to !in Live(s);
      assert Live(t) == (Live(s) - {from}) + {to};
    } else {
      assert Live(t) == Live(s);
    }
  }

  lemma StepKeeps(s: State, a: Action, lost: nat)
    requires Inv(s, lost)
    ensures Inv(Next(s, a), lost + if Stray(s, a) then 1 else 0)
  {
    match a
    case Construct(id, task) => if id !in s.locks { TakeKeeps(s, id, task, lost); }
    case Relock(id, task) => if id in s.locks && !s.locks[id].locked { TakeKeeps(s, id, task, lost); }
    case Move(from, to) => if from in s.locks && to !in s.locks { MoveKeeps(s, from, to, lost); }
    case Release(id, task) => ReleaseKeeps(s, id, task, lost);
    case Destroy(id, task) =>
      ReleaseKeeps(s, id, task, lost);
      DestroyKeeps(Released(s, id, task), id, lost + if Stray(s, a) then 1 else 0);
  }

  lemma {:induction false} RunKeeps(s: State, acts: seq<Action>, lost: nat)
    requires Inv(s, lost)
    ensures Inv(Run(s, acts), lost + Strays(s, acts))
    decreases |acts|
  {
    if acts != [] {
      StepKeeps(s, acts[0], lost);
      RunKeeps(Next(s, acts[0]), acts[1..], lost + if Stray(s, acts[0]) then 1 else 0);
    }
  }

  /** Over any run of tasks nesting, moving and releasing locks, `m_count` equals the
      number of live locked objects exactly when no locked object has been released
      by a task that does not hold the mutex; each such release leaves the mutex held
      once more than anybody will ever give back. All live objects were taken by the
      holder. */
  lemma CountIsLiveIff(acts: seq<Action>)
    ensures var s := Run(FREE, acts);
      && s.count == |Live(s)| + Strays(FREE, acts)
      && (s.count == |Live(s)| <==> Strays(FREE, acts) == 0)
      && (s.holder == None <==> s.count == 0)
      && forall id | id in Live(s) :: s.holder == Some(s.locks[id].owner)
  {
    assert Live(FREE) == {};
    RunKeeps(FREE, acts, 0);
  }

  /** Does the lock object get the mutex for the task, from `s` to `t`? It does exactly if
      nobody else has it; the task that has it may take it again, and has to give it
      back once more. */
  ghost predicate Granted(s: State, t: State, id: nat, task: nat) {
    if s.holder == None || s.holder == Some(task) then
      id in t.locks && t.locks[id] == Lock(true, task)
      && t.holder == Some(task) && t.depth == s.depth + 1 && t.count == s.count + 1
    else
      id in t.locks && !t.locks[id].locked && t.holder == s.holder && t.depth == s.depth && t.count == s.count
  }

  lemma GrantedIffNotOthers(s: State, id: nat, task: nat)
    ensures id !in s.locks ==> Granted(s, Next(s, Construct(id, task)), id, task)
    ensures id in s.locks && !s.locks[id].locked ==> Granted(s, Next(s, Relock(id, task)), id, task)
    ensures forall a: Action, k | (a == Construct(id, task) || a == Relock(id, task)) && k in s.locks && k != id ::
      k in Next(s, a).locks && Next(s, a).locks[k] == s.locks[k]
  {
  }

  /** A release by the holder through a locked object gives the mutex back once; with
      the last one it is free. Through an object that is not locked nothing happens. */
  lemma ReleaseGives(s: State, id: nat, task: nat)
    requires s.holder == None <==> s.depth == 0
    ensures var t := Next(s, Release(id, task));
      if id in s.locks && s.locks[id].locked && s.holder == Some(task) then
        && t.depth == s.depth - 1 && t.count == s.count - 1
        && t.holder == (if s.depth == 1 then None else Some(task))
        && t.locks == s.locks[id := Lock(false, s.locks[id].owner)]
      else t.depth == s.depth && t.count == s.count && t.holder == s.holder
    ensures var t, u := Next(s, Destroy(id, task)), Next(s, Release(id, task));
      id !in t.locks && t == u.(locks := u.locks - {id})
  {
  }

  /** Moving a lock object passes on what it holds. */
  lemma MoveIs(s: State, from: nat, to: nat)
    requires from in s.locks && to !in s.locks
    ensures var t := Next(s, Move(from, to));
      && t.locks == s.locks[to := s.locks[from]][from := Lock(false, s.locks[from].owner)]
      && t.holder == s.holder && t.depth == s.depth && t.count == s.count
  {
  }

  /** Taken twice and given back once, the mutex is still held. */
  lemma NestedLock(s: State, id: nat, inner: nat, task: nat)
    requires s.holder == None && s.depth == 0 && s.count == 0 && id !in s.locks && inner !in s.locks && id != inner
    ensures var s1 := Next(s, Construct(id, task)); var s2 := Next(s1, Construct(inner, task));
      var s3 := Next(s2, Destroy(inner, task)); var s4 := Next(s3, Destroy(id, task));
      && s1.count == 1 && s2.count == 2 && s2.locks[inner].locked
      && s3.holder == Some(task) && s3.count == 1 && s4.holder == None && s4.count == 0
  {
  }

  /** A count of one at a locked object means that it is the only live one. */
  lemma CountOneIsOutermost(s: State, id: nat)
    requires Inv(s, 0) && IsLocked(s, id)
    ensures s.count == 1 <==> Live(s) == {id}
  {
    assert id in Live(s);
    assert Live(s) == (Live(s) - {id}) + {id};
  }

  /** Once it is held beyond its live objects, the mutex is never given back. */
  lemma {:induction false} LostForEver(s: State, acts: seq<Action>, lost: nat)
    requires Inv(s, lost) && lost > 0
    ensures var t := Run(s, acts); t.count > |Live(t)| && t.holder == s.holder
    decreases |acts|
  {
    if acts != [] {
      var a := acts[0];
      StepKeeps(s, a, lost);
      if (a.Release? || a.Destroy?) && IsLocked(s, a.id) { assert a.id in Live(s); }
      LostForEver(Next(s, a), acts[1..], lost + if Stray(s, a) then 1 else 0);
    }
  }

  /** Task 1 locks, task 2 releases: from then on, whatever anybody does, the mutex
      belongs to task 1, which has no lock that would give it back. */
  lemma StrayIsReached(more: seq<Action>)
    ensures var s := Run(FREE, [Construct(0, 1), Release(0, 2)]);
      && s.count == 1 && Live(s) == {} && s.holder == Some(1)
      && Run(s, more).count > |Live(Run(s, more))| && Run(s, more).holder == Some(1)
  {
    var acts := [Construct(0, 1), Release(0, 2)];
    assert Live(FREE) == {};
    var s1 := Next(FREE, acts[0]);
    var s2 := Next(s1, acts[1]);
    assert acts[1..][1..] == [] && Run(s1, acts[1..]) == Run(s2, []) == s2;
    assert Run(FREE, acts) == s2;
    StepKeeps(FREE, acts[0], 0);
    StepKeeps(s1, acts[1], 0);
    assert s2.locks == map[0 := Lock(false, 1)] && Live(s2) == {};
    LostForEver(s2, more, 1);
  }
}
