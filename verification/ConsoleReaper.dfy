/**
 The termination registration of a writer and the deferred deletion of consoles, as
 they are programmed. Each critical section is one step.
 */
module Reaping {
  import opened Common

  /** The two kinds of termination handlers: that of a command task in follow mode,
      and any other. */
  datatype Handler = TerminationHandler | OtherHandler(id: nat)

  class OvmsCommandTask {
    var stopRequested: bool

    constructor ()
      ensures !stopRequested
    {
      stopRequested := false;
    }
  }

  class OvmsConsole {
    var termination: Option<Handler>
    var termData: OvmsCommandTask?
    var closing: bool
    ghost var deleted: bool

    /** A follow-mode registration has its task. */
    ghost predicate Valid()
      reads this
    {
      termination == Some(TerminationHandler) ==> termData != null
    }

    constructor ()
      ensures Valid() && termination == None && !closing && !deleted
    {
      termination, termData, closing, deleted := None, null, false, false;
    }

    method RegisterTerminationCallback(cb: Handler, ctx: OvmsCommandTask?)
      requires Valid() && (cb == TerminationHandler ==> ctx != null)
      modifies this`termination, this`termData
      ensures Valid() && termination == Some(cb) && termData == ctx
    {
      termData := ctx;
      termination := Some(cb);
    }

    /** Clears the registration if it is the caller's kind. */
    method DeregisterTerminationCallback(cb: Handler)
      requires Valid()
      modifies this`termination, this`termData
      ensures Valid()
      ensures termination == if old(termination) == Some(cb) then None else old(termination)
      ensures termData == if old(termination) == Some(cb) then null else old(termData)
    {
      if termination == Some(cb) {
        termData := null;
        termination := None;
      }
    }

    predicate HasFollowModeTask()
      reads this
    {
      termination == Some(TerminationHandler)
    }

    /** Asks a registered follow-mode task to stop. */
    method StopFollowModeTask() returns (stopped: bool)
      requires Valid()
      modifies termData
      ensures stopped == HasFollowModeTask()
      ensures stopped ==> termData.stopRequested
      ensures !stopped && termData != null ==> termData.stopRequested == old(termData.stopRequested)
    {
      stopped := false;
      if termination == Some(TerminationHandler) {
        termData.stopRequested := true;
        stopped := true;
      }
    }

    method SetClosing()
      modifies this`closing
      ensures closing
    {
      closing := true;
    }
  }

  /** The members of a list that are to be kept, in order. */
  function Kept(list: seq<OvmsConsole>, keep: set<OvmsConsole>): seq<OvmsConsole> {
    if list == [] then []
    else
      var init := Kept(list[..|list| - 1], keep);
      if list[|list| - 1] in keep then init + [list[|list| - 1]] else init
  }

  lemma {:induction false} KeptIn(list: seq<OvmsConsole>, keep: set<OvmsConsole>, c: OvmsConsole)
    ensures c in Kept(list, keep) <==> c in list && c in keep
  {
    if list != [] {
      assert list == list[..|list| - 1] + [list[|list| - 1]];
      KeptIn(list[..|list| - 1], keep, c);
    }
  }

  predicate Distinct(list: seq<OvmsConsole>) {
    forall i, j | 0 <= i < j < |list| :: list[i] != list[j]
  }

  /** Keeping some of a list that holds nothing twice, holds nothing twice. */
  lemma {:induction false} KeptDistinct(list: seq<OvmsConsole>, keep: set<OvmsConsole>)
    requires Distinct(list)
    ensures Distinct(Kept(list, keep))
  {
    if list != [] {
      var (init, last) := (list[..|list| - 1], list[|list| - 1]);
      KeptDistinct(init, keep);
      KeptIn(init, keep, last);
    }
  }

  /** One round of the loop over the list, with `reaping` standing at entry `j`. */
  lemma KeptNext(was: seq<OvmsConsole>, keep: set<OvmsConsole>, j: nat, reaping: seq<OvmsConsole>)
    requires j < |was| && reaping == Kept(was[..j], keep) + was[j..]
    ensures var it := |Kept(was[..j], keep)|;
      && it < |reaping| && reaping[it] == was[j]
      && (if was[j] in keep
          then reaping == Kept(was[..j + 1], keep) + was[j + 1..] && |Kept(was[..j + 1], keep)| == it + 1
          else reaping[..it] + reaping[it + 1..] == Kept(was[..j + 1], keep) + was[j + 1..] && Kept(was[..j + 1], keep) == Kept(was[..j], keep))
    ensures forall c :: c in was[..j + 1] <==> c in was[..j] || c == was[j]
  {
    assert was[..j + 1][..j] == was[..j];
    assert was[..j + 1] == was[..j] + [was[j]];
    assert was[j..] == [was[j]] + was[j + 1..];
  }

  class ConsoleReaper {
    var reaping: seq<OvmsConsole>

    /** The list holds each waiting console once, and none that is deleted. */
    ghost predicate Valid()
      reads this, reaping
    {
      Distinct(reaping) && forall c | c in reaping :: !c.deleted && c.closing
    }

    /** The waiting consoles whose follow-mode task is still there. */
    ghost function Busy(): set<OvmsConsole>
      reads this, reaping
    {
      set c | c in reaping && c.HasFollowModeTask()
    }

    constructor ()
      ensures Valid() && reaping == []
    {
      reaping := [];
    }

    /** True if the console waits for its task in the list, marked closing with its
        task told to stop; false if there is no such task and the caller deletes it. */
    method CloseConsole(child: OvmsConsole) returns (deferred: bool)
      requires Valid() && child.Valid() && child !in reaping && !child.deleted
      modifies this, child`closing, child.termData
      ensures Valid() && deferred == child.HasFollowModeTask() && !child.deleted
      ensures deferred ==> reaping == old(reaping) + [child] && child.closing && child.termData.stopRequested
      ensures !deferred ==> reaping == old(reaping) && child.closing == old(child.closing)
    {
      var stopped := child.StopFollowModeTask();
      if !stopped {
        return false;
      }
      child.SetClosing();
      reaping := reaping + [child];
      deferred := true;
    }

    /** Deletes, once each, the consoles whose task has gone, and keeps the others in
        order. */
    method ReapConsoles()
      requires Valid()
      modifies this, reaping
      ensures Valid() && reaping == Kept(old(reaping), old(Busy()))
      ensures forall c | c in old(reaping) ::
        (c.deleted <==> c !in old(Busy())) && c.termination == old(c.termination)
    {
      ghost var was, busy := reaping, Busy();
      ghost var j, gone := 0, {};
      var it := 0;
      while it < |reaping|
        invariant j <= |was| && it == |Kept(was[..j], busy)| <= |reaping|
        invariant reaping == Kept(was[..j], busy) + was[j..]
        invariant forall c | c in was :: c.termination == old(c.termination) && c.closing
        invariant forall c | c in was :: c.deleted <==> c in gone
        invariant forall c | c in was :: c in gone <==> c in was[..j] && c !in busy
        decreases |was| - j
      {
        var child := reaping[it];
        KeptNext(was, busy, j, reaping);
        if !child.HasFollowModeTask() {
          child.deleted := true;
          gone := gone + {child};
          reaping := reaping[..it] + reaping[it + 1..];
        } else {
          it := it + 1;
        }
        j := j + 1;
      }
      assert was[..j] == was;
      KeptDistinct(was, busy);
      forall c | c in reaping ensures c in was && c in busy { KeptIn(was, busy, c); }
    }
  }
}
