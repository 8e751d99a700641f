/**
 Tasks that lock, change and release the config store, and a backup that holds the
 storage meanwhile.
 */
module ConfigSystem {
  import opened Common
  import opened ConfigStore
  import opened ConfigWriteThrough
  import RecLock

  datatype World = World(locks: RecLock.State, store: Store<nat>)

  /** `Unlock` and `Destroy` are those of a transaction, with the order in which a
      commit would go through the pending operations. `Backup` takes the storage and
      `BackupDone` gives it back. */
  datatype Act =
    | Construct(id: nat, task: nat)
    | Relock(id: nat, task: nat)
    | Move(from: nat, to: nat)
    | Unlock(id: nat, task: nat, order: seq<nat>)
    | Destroy(id: nat, task: nat, order: seq<nat>)
    | Body(task: nat, op: Action<nat>)
    | Backup(task: nat)
    | BackupDone

  /** `Transaction::Unlock` commits if the last lock is about to be released. */
  predicate Commits(w: World, id: nat) {
    RecLock.IsLocked(w.locks, id) && w.locks.count == 1
  }

  function Next(w: World, a: Act): World {
    match a
    case Construct(id, task) => w.(locks := RecLock.Next(w.locks, RecLock.Construct(id, task)))
    case Relock(id, task) => w.(locks := RecLock.Next(w.locks, RecLock.Relock(id, task)))
    case Move(from, to) => w.(locks := RecLock.Next(w.locks, RecLock.Move(from, to)))
    case Unlock(id, task, order) =>
      World(RecLock.Next(w.locks, RecLock.Release(id, task)), if Commits(w, id) then Committed(w.store, order) else w.store)
    case Destroy(id, task, order) =>
      World(RecLock.Next(w.locks, RecLock.Destroy(id, task)), if Commits(w, id) then Committed(w.store, order) else w.store)
    case Body(_, op) => w.(store := ConfigWriteThrough.Next(w.store, op))
    case Backup(_) => w.(store := w.store.(busy := true))
    case BackupDone => w.(store := w.store.(busy := false))
  }

  function Run(w: World, acts: seq<Act>): World
    decreases |acts|
  {
    if acts == [] then w else Run(Next(w, acts[0]), acts[1..])
  }

  /** Changes are made, and the storage is taken, with the lock held; a lock is given
      back by the task that holds it. */
  ghost predicate Legal(w: World, a: Act) {
    match a
    case Construct(_, _) => true
    case Relock(_, _) => true
    case Move(_, _) => true
    case Unlock(id, task, order) =>
      IsOrder(w.store, order) && !RecLock.Stray(w.locks, RecLock.Release(id, task))
    case Destroy(id, task, order) =>
      IsOrder(w.store, order) && !RecLock.Stray(w.locks, RecLock.Destroy(id, task))
    case Body(task, op) =>
      && w.locks.holder == Some(task)
      && (op.Register? || op.Deregister? || op.Change?)
      && Possible(w.store, op) && Orderly(w.store, op)
    case Backup(task) => w.locks.holder == Some(task) && !w.store.busy
    case BackupDone => w.store.busy
  }

  ghost predicate LegalRun(w: World, acts: seq<Act>)
    decreases |acts|
  {
    acts == [] || (Legal(w, acts[0]) && LegalRun(Next(w, acts[0]), acts[1..]))
  }

  ghost predicate WorldInv(w: World) {
    RecLock.Inv(w.locks, 0) && Inv(w.store) && NoClash(w.store)
  }

  /** The changes among the actions. */
  function Changes(acts: seq<Act>): seq<Action<nat>> {
    if acts == [] then []
    else if acts[0].Body? then [acts[0].op] + Changes(acts[1..])
    else Changes(acts[1..])
  }

  lemma StepKeeps(w: World, a: Act)
    requires WorldInv(w) && Legal(w, a)
    ensures WorldInv(Next(w, a))
    ensures Seen(Next(w, a).store) == if a.Body? then WriteThrough(Seen(w.store), a.op) else Seen(w.store)
  {
    match a
    case Construct(id, task) => RecLock.StepKeeps(w.locks, RecLock.Construct(id, task), 0);
    case Relock(id, task) => RecLock.StepKeeps(w.locks, RecLock.Relock(id, task), 0);
    case Move(from, to) => RecLock.StepKeeps(w.locks, RecLock.Move(from, to), 0);
    case Unlock(id, task, order) =>
      RecLock.StepKeeps(w.locks, RecLock.Release(id, task), 0);
      CommitKeeps(w.store, order);
      CommitSeen(w.store, order);
    case Destroy(id, task, order) =>
      RecLock.StepKeeps(w.locks, RecLock.Destroy(id, task), 0);
      CommitKeeps(w.store, order);
      CommitSeen(w.store, order);
    case Body(_, op) => StepIsWriteThrough(w.store, op);
    case Backup(_) => BusySeen(w.store, true);
    case BackupDone => BusySeen(w.store, false);
  }

  /** Whatever the tasks do, the store shows what writing every change at once would
      have shown, and whenever nothing is pending the files are the same too. */
  lemma {:induction false} SystemIsWriteThrough(w: World, acts: seq<Act>)
    requires WorldInv(w) && LegalRun(w, acts)
    ensures var u := Run(w, acts);
      && WorldInv(u)
      && Seen(u.store) == WriteAll(Seen(w.store), Changes(acts))
      && (u.store.pending == map[] ==> u.store.files == WriteAll(Seen(w.store), Changes(acts)).files)
    decreases |acts|
  {
    if acts == [] {
      if w.store.pending == map[] { FlushedIs(w.store, w.store.files); }
    } else {
      StepKeeps(w, acts[0]);
      SystemIsWriteThrough(Next(w, acts[0]), acts[1..]);
    }
  }

  /** The release of the only live lock, with the storage free. */
  predicate Outermost(w: World, a: Act) {
    (a.Unlock? || a.Destroy?) && RecLock.Live(w.locks) == {a.id} && !w.store.busy
  }

  /** Files change and pending operations are done only when the outermost lock is
      released and the storage is free; and then all of them are. */
  lemma CommitIffOutermost(w: World, a: Act)
    requires WorldInv(w) && Legal(w, a)
    ensures var u := Next(w, a);
      if Outermost(w, a) then u.store.pending == map[] && u.store.files == Flushed(w.store) && u.locks.holder == None
      else u.store.files == w.store.files && (forall id | id in w.store.pending :: id in u.store.pending)
  {
    if a.Unlock? || a.Destroy? {
      if RecLock.IsLocked(w.locks, a.id) { RecLock.CountOneIsOutermost(w.locks, a.id); }
      assert RecLock.Live(w.locks) == {a.id} ==> a.id in RecLock.Live(w.locks);
      if Outermost(w, a) {
        CommitFlushes(w.store, a.order);
      }
    }
  }

  /** While a backup has the storage, no file changes. */
  lemma {:induction false} BackupSeesNoChange(w: World, acts: seq<Act>)
    requires WorldInv(w) && LegalRun(w, acts) && w.store.busy && BackupDone !in acts
    ensures Run(w, acts).store.busy && Run(w, acts).store.files == w.store.files
    decreases |acts|
  {
    if acts != [] {
      assert acts[0] in acts && forall a | a in acts[1..] :: a in acts;
      StepKeeps(w, acts[0]);
      CommitIffOutermost(w, acts[0]);
      BackupSeesNoChange(Next(w, acts[0]), acts[1..]);
    }
  }

  /** A backup can begin for the task that holds the lock, and from then until it is
      done no file changes, whatever the tasks do. */
  lemma BackupHoldsFiles(w: World, task: nat, acts: seq<Act>)
    requires WorldInv(w) && Legal(w, Backup(task)) && LegalRun(Next(w, Backup(task)), acts) && BackupDone !in acts
    ensures var u := Run(Next(w, Backup(task)), acts);
      u.store.files == w.store.files && Legal(u, BackupDone) && !Next(u, BackupDone).store.busy
  {
    StepKeeps(w, Backup(task));
    BackupSeesNoChange(Next(w, Backup(task)), acts);
  }

  /** So after a backup the first outermost release brings the files up to date. */
  lemma FirstReleaseCatchesUp(w: World, acts: seq<Act>, a: Act)
    requires WorldInv(w) && LegalRun(w, acts) && Legal(Run(w, acts), a) && Outermost(Run(w, acts), a)
    ensures var u := Next(Run(w, acts), a);
      u.store.pending == map[] && u.store.files == WriteAll(Seen(w.store), Changes(acts)).files
  {
    SystemIsWriteThrough(w, acts);
    CommitIffOutermost(Run(w, acts), a);
  }
}
