/**
 The config store: parameters cached in memory, and their files, which are written
 or removed only when a transaction ends.
 */
module ConfigStore {
  import opened Common

  /** `ConfigParamMap`. */
  type Entries = map<string, string>

  datatype Param = Param(name: string, instances: Entries)

  /** `TransOp`. */
  datatype TransOp = Save | Delete

  /** `files` are the contents of the storage by parameter name, `params` is
      `m_params`, `objects` the parameter objects, `pending` is `m_transaction`;
      `busy` tells that someone else holds the storage. Objects are identified by
      whatever their type is; their order means nothing. */
  datatype Store<!Id> = Store(files: map<string, Entries>, params: map<string, Id>, objects: map<Id, Param>,
                              pending: map<Id, TransOp>, busy: bool)

  /** A missing file is read like an empty one. */
  function FileOf(files: map<string, Entries>, name: string): Entries {
    if name in files then files[name] else map[]
  }

  // ------------------------------------------------------------ the operations

  /** `TransactionAdd`: a pending deletion stays. */
  function Added<Id>(s: Store<Id>, id: Id, op: TransOp): Store<Id> {
    s.(pending := s.pending[id := if id in s.pending && s.pending[id] == Delete then Delete else op])
  }

  function AllAdded<Id>(s: Store<Id>, adds: seq<(Id, TransOp)>): Store<Id> {
    if adds == [] then s else Added(AllAdded(s, adds[..|adds| - 1]), adds[|adds| - 1].0, adds[|adds| - 1].1)
  }

  /** The operation pending for an object is the greatest of those added since nothing
      was pending. */
  lemma {:induction false} PendingIsGreatest<Id>(s: Store<Id>, adds: seq<(Id, TransOp)>, id: Id)
    requires s.pending == map[]
    ensures var t := AllAdded(s, adds);
      && (id in t.pending <==> exists k | 0 <= k < |adds| :: adds[k].0 == id)
      && (id in t.pending ==> (t.pending[id] == Delete <==> (id, Delete) in adds))
  {
    if adds != [] {
      PendingIsGreatest(s, adds[..|adds| - 1], id);
      assert adds == adds[..|adds| - 1] + [adds[|adds| - 1]];
    }
  }

  /** `RegisterParam`: a new parameter reads its file. */
  function Registered<Id>(s: Store<Id>, name: string, id: Id): Store<Id> {
    if name in s.params then s
    else s.(params := s.params[name := id], objects := s.objects[id := Param(name, FileOf(s.files, name))])
  }

  /** `DeregisterParam`. */
  function Deregistered<Id>(s: Store<Id>, name: string): Store<Id> {
    if name !in s.params || s.params[name] !in s.objects then s
    else
      var id := s.params[name];
      Added(s.(params := s.params - {name}, objects := s.objects[id := s.objects[id].(instances := map[])]), id, Delete)
  }

  /** The setters, `DeleteInstance` and `SetMap` of a registered parameter: its new
      instances, and a pending save if they differ from the old. */
  function Changed<Id>(s: Store<Id>, name: string, instances: Entries): Store<Id> {
    if name !in s.params || s.params[name] !in s.objects || s.objects[s.params[name]].instances == instances then s
    else
      var id := s.params[name];
      var t := s.(objects := s.objects[id := s.objects[id].(instances := instances)]);
      if s.objects[id].name != "" then Added(t, id, Save) else t
  }

  /** What one pending operation does to the files. */
  function Performed<Id>(files: map<string, Entries>, s: Store<Id>, id: Id): map<string, Entries> {
    if id !in s.pending || id !in s.objects then files
    else if s.pending[id] == Delete then files - {s.objects[id].name}
    else files[s.objects[id].name := s.objects[id].instances]
  }

  function AllPerformed<Id>(files: map<string, Entries>, s: Store<Id>, order: seq<Id>): map<string, Entries> {
    if order == [] then files
    else Performed(AllPerformed(files, s, order[..|order| - 1]), s, order[|order| - 1])
  }

  ghost predicate Lists<Id>(order: seq<Id>, ids: set<Id>) {
    && (forall id | id in order :: id in ids)
    && (forall id | id in ids :: id in order)
    && (forall i, j | 0 <= i < j < |order| :: order[i] != order[j])
  }

  /** An order of the pending operations. */
  ghost predicate IsOrder<Id>(s: Store<Id>, order: seq<Id>) {
    Lists(order, s.pending.Keys)
  }

  /** `TransactionCommit`. */
  function Committed<Id>(s: Store<Id>, order: seq<Id>): Store<Id> {
    if s.busy then s else s.(files := AllPerformed(s.files, s, order), pending := map[])
  }

  // ------------------------------------------------------------ the invariant

  ghost predicate Registration<Id>(s: Store<Id>, name: string)
    requires name in s.params
  {
    s.params[name] in s.objects && s.objects[s.params[name]].name == name
  }

  /** What a pending operation is about: a save, a parameter that is registered; a
      deletion, one that no longer is. */
  ghost predicate Pends<Id>(s: Store<Id>, id: Id)
    requires id in s.pending
  {
    && id in s.objects
    && var name := s.objects[id].name;
       if s.pending[id] == Save then name in s.params && s.params[name] == id && name != ""
       else !(name in s.params && s.params[name] == id)
  }

  ghost predicate DeletePends<Id>(s: Store<Id>, name: string) {
    exists id :: id in s.pending && s.pending[id] == Delete && id in s.objects && s.objects[id].name == name
  }

  ghost predicate SavePends<Id>(s: Store<Id>, name: string) {
    name in s.params && s.params[name] in s.pending
  }

  /** A parameter with nothing pending has a file equal to its cached instances. */
  ghost predicate InStep<Id>(s: Store<Id>, name: string)
    requires name in s.params && Registration(s, name)
  {
    name != "" && !SavePends(s, name) ==> FileOf(s.files, name) == s.objects[s.params[name]].instances
  }

  ghost predicate Inv<Id>(s: Store<Id>) {
    && (forall name | name in s.params :: Registration(s, name) && InStep(s, name))
    && (forall id | id in s.pending :: Pends(s, id))
  }

  /** No registered name has a deletion pending. */
  ghost predicate NoClash<Id>(s: Store<Id>) {
    forall name | name in s.params :: !DeletePends(s, name)
  }

  /** No name has both a save and a deletion pending. */
  ghost predicate NoMix<Id>(s: Store<Id>) {
    forall name | name in s.params && SavePends(s, name) :: !DeletePends(s, name)
  }

  // ------------------------------------------------------------ what is owed

  /** The file a name will have once everything pending is done. */
  ghost function Owed<Id>(s: Store<Id>, name: string): Option<Entries> {
    if SavePends(s, name) && s.params[name] in s.objects then Some(s.objects[s.params[name]].instances)
    else if DeletePends(s, name) then None
    else if name in s.files then Some(s.files[name])
    else None
  }

  ghost function Flushed<Id>(s: Store<Id>): map<string, Entries> {
    map name | name in s.files.Keys + s.params.Keys && Owed(s, name).Some? :: Owed(s, name).value
  }

  lemma FlushedAt<Id>(s: Store<Id>, name: string)
    ensures name in Flushed(s) <==> Owed(s, name).Some?
    ensures name in Flushed(s) ==> Flushed(s)[name] == Owed(s, name).value
  {
  }

  // -------------------------------------------------------------- committing

  /** What an operation leaves of its own file. */
  ghost function Effect<Id>(s: Store<Id>, id: Id): Option<Entries>
    requires id in s.pending && id in s.objects
  {
    if s.pending[id] == Delete then None else Some(s.objects[id].instances)
  }

  ghost predicate About<Id>(s: Store<Id>, id: Id, name: string) {
    id in s.pending && id in s.objects && s.objects[id].name == name
  }

  function At(files: map<string, Entries>, name: string): Option<Entries> {
    if name in files then Some(files[name]) else None
  }

  /** A name none of the operations is about keeps its file. */
  lemma {:induction false} OthersUntouched<Id>(s: Store<Id>, order: seq<Id>, name: string)
    requires forall id | id in order :: !About(s, id, name)
    ensures At(AllPerformed(s.files, s, order), name) == At(s.files, name)
  {
    if order != [] {
      assert order[|order| - 1] in order;
      assert forall id | id in order[..|order| - 1] :: id in order;
      OthersUntouched(s, order[..|order| - 1], name);
    }
  }

  /** If all operations about a name have the same effect, that is its file. */
  lemma {:induction false} SameEffect<Id>(s: Store<Id>, order: seq<Id>, name: string, effect: Option<Entries>)
    requires forall id | id in order && About(s, id, name) :: Effect(s, id) == effect
    requires exists id :: id in order && About(s, id, name)
    ensures At(AllPerformed(s.files, s, order), name) == effect
  {
    var last := order[|order| - 1];
    var rest := order[..|order| - 1];
    assert forall id | id in rest :: id in order;
    assert last in order;
    if !About(s, last, name) {
      var id :| id in order && About(s, id, name);
      assert order == rest + [last];
      assert id in rest;
      SameEffect(s, rest, name, effect);
    }
  }

  lemma CommitAt<Id>(s: Store<Id>, order: seq<Id>, name: string)
    requires Inv(s) && NoMix(s) && IsOrder(s, order)
    ensures At(AllPerformed(s.files, s, order), name) == Owed(s, name)
  {
    if SavePends(s, name) {
      var id := s.params[name];
      assert Pends(s, id) && About(s, id, name);
      forall k | k in order && About(s, k, name) ensures Effect(s, k) == Some(s.objects[id].instances) {
        assert Pends(s, k);
        assert s.pending[k] == Delete ==> DeletePends(s, name);
      }
      SameEffect(s, order, name, Some(s.objects[id].instances));
    } else if DeletePends(s, name) {
      var d :| d in s.pending && s.pending[d] == Delete && d in s.objects && s.objects[d].name == name;
      assert About(s, d, name);
      forall k | k in order && About(s, k, name) ensures Effect(s, k) == None { assert Pends(s, k); }
      SameEffect(s, order, name, None);
    } else {
      forall k | k in order ensures !About(s, k, name) {
        assert Pends(s, k);
      }
      OthersUntouched(s, order, name);
    }
  }

  /** A commit that finds the storage free writes exactly what is owed, in whatever
      order it goes through the operations. */
  lemma CommitFlushes<Id>(s: Store<Id>, order: seq<Id>)
    requires Inv(s) && NoMix(s) && IsOrder(s, order) && !s.busy
    ensures Committed(s, order).files == Flushed(s)
    ensures Committed(s, order).pending == map[]
  {
    var files := AllPerformed(s.files, s, order);
    forall name ensures At(files, name) == At(Flushed(s), name) {
      CommitAt(s, order, name);
      FlushedAt(s, name);
    }
    forall name ensures name in files <==> name in Flushed(s) {
      assert At(files, name) == At(Flushed(s), name);
    }
    forall name | name in files ensures files[name] == Flushed(s)[name] {
      assert At(files, name) == At(Flushed(s), name);
    }
  }

  // -------------------------------------------------------- what comes to pend

  /** Changing a registered parameter replaces its instances; a save comes to pend
      exactly if they differ from the old ones and the parameter has a name, and a
      deletion that pends already stays one. Nothing else changes. */
  lemma ChangeIs<Id>(s: Store<Id>, name: string, instances: Entries)
    requires name in s.params && s.params[name] in s.objects && s.objects[s.params[name]].name == name
    ensures var t := Changed(s, name, instances); var id := s.params[name];
      && t.objects == s.objects[id := Param(name, instances)]
      && t.files == s.files && t.params == s.params && t.busy == s.busy
      && (s.objects[id].instances == instances || name == "" ==> t.pending == s.pending)
      && (s.objects[id].instances != instances && name != "" ==>
            t.pending == s.pending[id := if id in s.pending && s.pending[id] == Delete then Delete else Save])
  {
    var id := s.params[name];
    assert s.objects[id] == Param(name, s.objects[id].instances);
    if s.objects[id].instances == instances { assert s.objects[id := Param(name, instances)] == s.objects; }
  }

  /** Removing a parameter empties it, takes its name, and leaves its deletion pending. */
  lemma RemovalIs<Id>(s: Store<Id>, name: string)
    requires name in s.params && s.params[name] in s.objects
    ensures var t := Deregistered(s, name); var id := s.params[name];
      && name !in t.params && (forall n | n in s.params && n != name :: n in t.params && t.params[n] == s.params[n])
      && t.params.Keys <= s.params.Keys
      && t.objects == s.objects[id := Param(s.objects[id].name, map[])]
      && t.pending == s.pending[id := Delete] && t.files == s.files && t.busy == s.busy
  {
  }

  /** Registering a name that is taken does nothing; a new one gets what its file holds,
      or nothing if there is none. */
  lemma RegistrationIs<Id>(s: Store<Id>, name: string, id: Id)
    ensures var t := Registered(s, name, id);
      && (name in s.params ==> t == s)
      && (name !in s.params ==>
            t == Store(s.files, s.params[name := id],
                       s.objects[id := Param(name, if name in s.files then s.files[name] else map[])], s.pending, s.busy))
  {
  }
}
