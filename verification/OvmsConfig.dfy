/**
 The config store as it is programmed: the recursive mutex with its lock objects,
 parameter objects, and the store that collects operations and commits them.
 */
module OvmsConfig {
  import opened Common
  import opened ConfigStore
  import ConfigWriteThrough
  import MetricRegistry
  import RecLock
  import UniquePrefix

  // ----------------------------------------------------------------- locking

  class OvmsRecMutex {
    var holder: Option<nat>
    var depth: nat
    var count: int

    /** The mutex, with the lock objects of whoever asks. */
    ghost function With(locks: map<nat, RecLock.Lock>): RecLock.State
      reads this
    {
      RecLock.State(holder, depth, count, locks)
    }

    constructor ()
      ensures With(map[]) == RecLock.FREE
    {
      holder, depth, count := None, 0, 0;
    }

    method Lock(task: nat) returns (locked: bool)
      modifies this
      ensures locked == RecLock.CanTake(old(With(map[])), task)
      ensures With(map[]) == RecLock.Taken(old(With(map[])), task)
      ensures locked <==> old(holder) == None || old(holder) == Some(task)
      ensures if locked then holder == Some(task) && depth == old(depth) + 1 && count == old(count) + 1
              else holder == old(holder) && depth == old(depth) && count == old(count)
    {
      locked := holder == None || holder == Some(task);
      if locked {
        holder, depth := Some(task), depth + 1;
        count := count + 1;
      }
    }

    method Unlock(task: nat)
      requires holder.Some? ==> depth > 0
      modifies this
      ensures With(map[]) == RecLock.Given(old(With(map[])), task)
      ensures if old(holder) == Some(task) then
                && depth == old(depth) - 1 && count == old(count) - 1
                && holder == if depth == 0 then None else Some(task)
              else holder == old(holder) && depth == old(depth) && count == old(count)
    {
      if holder == Some(task) {
        count := count - 1;
        depth := depth - 1;
        if depth == 0 {
          holder := None;
        }
      }
    }
  }

  class OvmsRecMutexLock {
    const mutex: OvmsRecMutex
    var locked: bool

    constructor (mutex: OvmsRecMutex, task: nat)
      modifies mutex
      ensures this.mutex == mutex && locked == RecLock.CanTake(old(mutex.With(map[])), task)
      ensures mutex.With(map[]) == RecLock.Taken(old(mutex.With(map[])), task)
    {
      var ok := mutex.Lock(task);
      this.mutex, locked := mutex, ok;
    }

    /** Takes the lock over from another object. */
    constructor Moved(src: OvmsRecMutexLock)
      modifies src`locked
      ensures mutex == src.mutex && locked == old(src.locked) && !src.locked
    {
      mutex, locked := src.mutex, src.locked;
      new;
      src.locked := false;
    }

    method Lock(task: nat) returns (ok: bool)
      modifies this`locked, mutex
      ensures ok == locked == (old(locked) || RecLock.CanTake(old(mutex.With(map[])), task))
      ensures mutex.With(map[]) == if old(locked) then old(mutex.With(map[])) else RecLock.Taken(old(mutex.With(map[])), task)
    {
      if !locked {
        locked := mutex.Lock(task);
      }
      ok := locked;
    }

    method Unlock(task: nat)
      requires mutex.holder.Some? ==> mutex.depth > 0
      modifies this`locked, mutex
      ensures !locked
      ensures mutex.With(map[]) == if old(locked) then RecLock.Given(old(mutex.With(map[])), task) else old(mutex.With(map[]))
    {
      if locked {
        mutex.Unlock(task);
        locked := false;
      }
    }
  }

  // ------------------------------------------------------------- parameters

  class OvmsConfigParam {
    const name: string
    var instances: Entries

    constructor (name: string, instances: Entries)
      ensures this.name == name && this.instances == instances
    {
      this.name, this.instances := name, instances;
    }
  }

  // ------------------------------------------------------ looking up by name

  ghost predicate OnlyOneWith(names: set<string>, token: string, name: string) {
    name in names && token <= name && forall x | x in names && token <= x :: x == name
  }

  /** The name a token stands for: itself if there is a parameter of that name, else
      the only name that starts with it. */
  ghost function Meant(names: set<string>, token: string): Option<string> {
    if token in names then Some(token)
    else if exists name | name in names :: OnlyOneWith(names, token, name) then
      var name :| name in names && OnlyOneWith(names, token, name);
      Some(name)
    else None
  }

  /** The keys of a map in their order. */
  method Ordered(names: set<string>) returns (keys: seq<string>)
    ensures UniquePrefix.Sorted(keys)
    ensures forall i, j | 0 <= i < j < |keys| :: keys[i] != keys[j]
    ensures forall k :: k in keys <==> k in names
  {
    keys := [];
    var rest := names;
    while rest != {}
      invariant rest <= names && UniquePrefix.Sorted(keys)
      invariant forall i, j | 0 <= i < j < |keys| :: keys[i] != keys[j]
      invariant forall k :: k in keys <==> k in names && k !in rest
      decreases rest
    {
      var name :| name in rest;
      MetricRegistry.InsertKeepsSorted(keys, name);
      var at := MetricRegistry.Place(keys, name);
      ghost var was := keys;
      keys := MetricRegistry.Inserted(keys, at, name);
      assert forall i | 0 <= i < |keys| :: keys[i] == if i < at then was[i] else if i == at then name else was[i - 1];
      assert forall k :: k in keys <==> k in was[..at] || k == name || k in was[at..];
      assert was == was[..at] + was[at..];
      rest := rest - {name};
    }
  }

  /** What the lookup finds in a map's keys is what the token stands for. */
  lemma AnswerIsMeant(keys: seq<string>, names: set<string>, token: string, answer: Option<nat>)
    requires forall k :: k in keys <==> k in names
    requires forall i, j | 0 <= i < j < |keys| :: keys[i] != keys[j]
    requires UniquePrefix.IsAnswer(keys, token, answer)
    ensures answer.Some? ==> answer.value < |keys|
    ensures Meant(names, token) == if answer.Some? then Some(keys[answer.value]) else None
  {
    if token !in keys {
      if answer.Some? {
        var name := keys[answer.value];
        forall x | x in names && token <= x ensures x == name {
          var i :| 0 <= i < |keys| && keys[i] == x;
        }
        assert OnlyOneWith(names, token, name);
      } else if exists name | name in names :: OnlyOneWith(names, token, name) {
        var name :| name in names && OnlyOneWith(names, token, name);
        var k :| 0 <= k < |keys| && keys[k] == name;
        forall i | 0 <= i < |keys| && token <= keys[i] ensures i == k {
          assert keys[i] in names;
        }
        assert UniquePrefix.OnlyPrefix(keys, token, k, |keys|);
        assert false;
      }
    }
  }

  class OvmsConfig {
    var files: map<string, Entries>
    var params: map<string, OvmsConfigParam>
    var transaction: map<OvmsConfigParam, TransOp>
    var storeBusy: bool
    ghost var objects: set<OvmsConfigParam>

    ghost function Now(): Store<OvmsConfigParam>
      reads this, objects
    {
      Store(files, params, map p | p in objects :: Param(p.name, p.instances), transaction, storeBusy)
    }

    /** The parameters are objects of the store, filed under their own names. */
    ghost predicate Valid()
      reads this
    {
      && (forall name | name in params :: params[name] in objects && params[name].name == name)
      && (forall p | p in transaction :: p in objects)
    }

    constructor (files: map<string, Entries>)
      ensures Valid() && Now() == Store(files, map[], map[], map[], false)
    {
      this.files, params, transaction, storeBusy, objects := files, map[], map[], false, {};
    }

    method TransactionAdd(param: OvmsConfigParam, todo: TransOp)
      requires Valid() && param in objects
      modifies this`transaction
      ensures Valid() && Now() == Added(old(Now()), param, todo)
    {
      var have := if param in transaction then transaction[param] else Save;
      transaction := transaction[param := have];
      if todo == Delete && have == Save {
        transaction := transaction[param := todo];
      }
    }

    /** Performs the pending operations in whatever order the objects have, unless
        someone holds the storage. */
    method TransactionCommit() returns (ghost order: seq<OvmsConfigParam>)
      requires Valid()
      modifies this`files, this`transaction
      ensures Valid() && IsOrder(old(Now()), order) && Now() == Committed(old(Now()), order)
    {
      ghost var was := Now();
      order := [];
      if transaction == map[] {
        return;
      }
      if storeBusy {
        order := ConfigWriteThrough.SomeOrder(transaction.Keys);
        return;
      }
      var rest := transaction.Keys;
      while rest != {}
        invariant rest <= transaction.Keys && transaction == was.pending
        invariant Lists(order, transaction.Keys - rest)
        invariant files == AllPerformed(was.files, was, order)
        decreases rest
      {
        var param :| param in rest;
        if transaction[param] == Delete {
          files := files - {param.name};
        } else {
          files := files[param.name := param.instances];
        }
        rest := rest - {param};
        ghost var longer := order + [param];
        assert longer[..|order|] == order;
        order := longer;
      }
      assert transaction.Keys - rest == was.pending.Keys;
      transaction := map[];
    }

    /** A new parameter reads its file, which waits for the storage. */
    method RegisterParam(name: string)
      requires Valid() && (name !in params ==> !storeBusy)
      modifies this`params, this`objects
      ensures Valid() && name in params
      ensures name !in old(params) ==> fresh(params[name])
      ensures Now() == Registered(old(Now()), name, params[name])
    {
      if name !in params {
        var p := new OvmsConfigParam(name, FileOf(files, name));
        params := params[name := p];
        objects := objects + {p};
      }
    }

    method DeregisterParam(name: string)
      requires Valid()
      modifies this`params, this`transaction, objects
      ensures Valid() && Now() == Deregistered(old(Now()), name)
    {
      if name in params {
        var p := params[name];
        p.instances := map[];
        params := params - {name};
        TransactionAdd(p, Delete);
      }
    }

    /** `OvmsConfigParam::Save`. */
    method Saved(p: OvmsConfigParam)
      requires Valid() && p in objects
      modifies this`transaction
      ensures Valid() && Now() == if p.name == "" then old(Now()) else Added(old(Now()), p, Save)
    {
      if p.name != "" {
        TransactionAdd(p, Save);
      }
    }

    /** Changes a parameter's instances and saves it. */
    method Replace(p: OvmsConfigParam, instances: Entries)
      requires Valid() && p.name in params && params[p.name] == p && p.instances != instances
      modifies this`transaction, p
      ensures Valid() && Now() == Changed(old(Now()), p.name, instances)
    {
      p.instances := instances;
      Saved(p);
    }

    /** `CachedParam`: by full name or unique prefix. */
    method CachedParam(token: string) returns (p: OvmsConfigParam?)
      requires Valid()
      ensures p == match Meant(params.Keys, token) { case Some(name) => (if name in params then params[name] else null) case None => null }
    {
      var keys := Ordered(params.Keys);
      var answer := UniquePrefix.FindUniquePrefix(keys, token);
      AnswerIsMeant(keys, params.Keys, token, answer);
      if answer.None? {
        return null;
      }
      p := params[keys[answer.value]];
    }

    method SetParamValue(token: string, instance: string, value: string)
      requires Valid()
      modifies this`transaction, objects
      ensures Valid()
      ensures match Meant(old(params).Keys, token)
        case Some(name) =>
          name in old(params) && Now() == Changed(old(Now()), name, old(params[name].instances)[instance := value])
        case None => Now() == old(Now())
    {
      var p := CachedParam(token);
      if p != null {
        if instance !in p.instances || p.instances[instance] != value {
          Replace(p, p.instances[instance := value]);
        }
      }
    }

    method DeleteInstance(token: string, instance: string)
      requires Valid()
      modifies this`transaction, objects
      ensures Valid()
      ensures match Meant(old(params).Keys, token)
        case Some(name) =>
          name in old(params) && Now() == Changed(old(Now()), name, old(params[name].instances) - {instance})
        case None => Now() == old(Now())
    {
      var p := CachedParam(token);
      if p != null {
        if instance in p.instances {
          Replace(p, p.instances - {instance});
        }
      }
    }

    /** `OvmsConfigParam::SetMap`. */
    method SetMap(p: OvmsConfigParam, instances: Entries)
      requires Valid() && p.name in params && params[p.name] == p
      modifies this`transaction, p
      ensures Valid() && Now() == Changed(old(Now()), p.name, instances)
    {
      if p.instances != instances {
        Replace(p, instances);
      }
    }

    /** Replaces all instances; a parameter that is not there yet is registered, which
        waits for the storage. */
    method SetParamMap(token: string, instances: Entries)
      requires Valid() && (Meant(params.Keys, token) == None ==> !storeBusy)
      modifies this`transaction, this`params, this`objects, objects
      ensures Valid()
      ensures match Meant(old(params).Keys, token)
        case Some(name) => Now() == Changed(old(Now()), name, instances)
        case None => token in params && Now() == Changed(Registered(old(Now()), token, params[token]), token, instances)
    {
      var p := CachedParam(token);
      if p == null {
        RegisterParam(token);
        p := CachedParam(token);
      }
      SetMap(p, instances);
    }

    /** `Transaction::Unlock`: the commit when the last lock is about to go. */
    method Unlock(lock: OvmsRecMutexLock, task: nat) returns (ghost order: seq<OvmsConfigParam>)
      requires Valid() && (lock.mutex.holder.Some? ==> lock.mutex.depth > 0)
      modifies this`files, this`transaction, lock`locked, lock.mutex
      ensures Valid() && !lock.locked
      ensures IsOrder(old(Now()), order)
      ensures Now() == if old(lock.locked && lock.mutex.count == 1) then Committed(old(Now()), order) else old(Now())
      ensures lock.mutex.With(map[]) == if old(lock.locked) then RecLock.Given(old(lock.mutex.With(map[])), task) else old(lock.mutex.With(map[]))
    {
      if lock.locked && lock.mutex.count == 1 {
        order := TransactionCommit();
      } else {
        order := ConfigWriteThrough.SomeOrder(transaction.Keys);
      }
      lock.Unlock(task);
    }
  }
}
