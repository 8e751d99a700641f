/**
 Deferred writing of the config store against a store that writes every change at
 once.
 */
module ConfigWriteThrough {
  import opened Common
  import opened ConfigStore

  /** The store without deferral: what is in the files, and what is cached. */
  datatype Ideal = Ideal(files: map<string, Entries>, caches: map<string, Entries>)

  datatype Action<Id> =
    | Register(name: string, id: Id)
    | Deregister(name: string)
    | Change(name: string, instances: Entries)
    | Commit(order: seq<Id>)
    | Seize
    | Free

  function Next<Id>(s: Store<Id>, a: Action<Id>): Store<Id> {
    match a
    case Register(name, id) => Registered(s, name, id)
    case Deregister(name) => Deregistered(s, name)
    case Change(name, instances) => Changed(s, name, instances)
    case Commit(order) => Committed(s, order)
    case Seize => s.(busy := true)
    case Free => s.(busy := false)
  }

  function Run<Id>(s: Store<Id>, acts: seq<Action<Id>>): Store<Id>
    decreases |acts|
  {
    if acts == [] then s else Run(Next(s, acts[0]), acts[1..])
  }

  /** The same change written at once. Commits and the state of the storage are of no
      account. */
  function WriteThrough<Id>(i: Ideal, a: Action<Id>): Ideal {
    match a
    case Register(name, _) =>
      if name in i.caches then i else i.(caches := i.caches[name := FileOf(i.files, name)])
    case Deregister(name) =>
      if name in i.caches then Ideal(i.files - {name}, i.caches - {name}) else i
    case Change(name, instances) =>
      if name !in i.caches || i.caches[name] == instances then i
      else Ideal(if name == "" then i.files else i.files[name := instances], i.caches[name := instances])
    case _ => i
  }

  function WriteAll<Id>(i: Ideal, acts: seq<Action<Id>>): Ideal
    decreases |acts|
  {
    if acts == [] then i else WriteAll(WriteThrough(i, acts[0]), acts[1..])
  }

  /** What can happen: loading a file waits for the storage, a new object is new, and
      a commit goes through all operations. */
  ghost predicate Possible<Id>(s: Store<Id>, a: Action<Id>) {
    match a
    case Register(name, id) => name !in s.params ==> !s.busy && id !in s.objects
    case Commit(order) => IsOrder(s, order)
    case _ => true
  }

  /** A name is not registered again while its deletion is pending. */
  ghost predicate Orderly<Id>(s: Store<Id>, a: Action<Id>) {
    a.Register? && a.name !in s.params ==> !DeletePends(s, a.name)
  }

  ghost predicate OrderlyRun<Id>(s: Store<Id>, acts: seq<Action<Id>>)
    decreases |acts|
  {
    acts == [] ||
    (Possible(s, acts[0]) && Orderly(s, acts[0]) && OrderlyRun(Next(s, acts[0]), acts[1..]))
  }

  ghost function Caches<Id>(s: Store<Id>): map<string, Entries> {
    map name | name in s.params && s.params[name] in s.objects :: s.objects[s.params[name]].instances
  }

  /** The store as seen from outside: its caches, and its files with everything
      pending done. */
  ghost function Seen<Id>(s: Store<Id>): Ideal {
    Ideal(Flushed(s), Caches(s))
  }

  // ------------------------------------------------- every step keeps the invariant

  lemma RegisterKeeps<Id>(s: Store<Id>, name: string, id: Id)
    requires Inv(s) && NoClash(s) && Possible(s, Register(name, id)) && Orderly(s, Register(name, id))
    ensures Inv(Registered(s, name, id)) && NoClash(Registered(s, name, id))
    ensures forall n :: Owed(Registered(s, name, id), n) == Owed(s, n)
  {
    if name !in s.params {
      var t := Registered(s, name, id);
      forall k | k in t.pending ensures Pends(t, k) { assert Pends(s, k); }
      assert forall n | n in s.params :: Registration(s, n) && InStep(s, n);
      forall n ensures DeletePends(t, n) <==> DeletePends(s, n) { DeletesSame(s, t, n); }
    }
  }

  /** Deletions pend for the same names if the pending operations and the names of
      their objects are the same. */
  lemma DeletesSame<Id>(s: Store<Id>, t: Store<Id>, name: string)
    requires forall id | id in s.pending && s.pending[id] == Delete && id in s.objects ::
      id in t.pending && t.pending[id] == Delete && id in t.objects && t.objects[id].name == s.objects[id].name
    requires forall id | id in t.pending && t.pending[id] == Delete && id in t.objects ::
      id in s.pending && s.pending[id] == Delete && id in s.objects && t.objects[id].name == s.objects[id].name
    ensures DeletePends(t, name) <==> DeletePends(s, name)
  {
  }

  lemma ChangeOwes<Id>(s: Store<Id>, name: string, instances: Entries)
    requires Inv(s) && Changed(s, name, instances) != s
    ensures var t := Changed(s, name, instances);
      && (forall n :: DeletePends(t, n) <==> DeletePends(s, n))
      && (forall n :: Owed(t, n) == if n == name && name != "" then Some(instances) else Owed(s, n))
  {
    var t := Changed(s, name, instances);
    var id := s.params[name];
    assert Registration(s, name);
    assert id in s.pending ==> Pends(s, id);
    assert forall n | n in s.params :: Registration(s, n);
    forall n ensures DeletePends(t, n) <==> DeletePends(s, n) { DeletesSame(s, t, n); }
  }

  lemma ChangePends<Id>(s: Store<Id>, name: string, instances: Entries)
    requires Inv(s)
    ensures var t := Changed(s, name, instances); forall k | k in t.pending :: Pends(t, k)
  {
    var t := Changed(s, name, instances);
    if t != s {
      assert Registration(s, name);
      assert s.params[name] in s.pending ==> Pends(s, s.params[name]);
      forall k | k in t.pending ensures Pends(t, k) { assert k in s.pending ==> Pends(s, k); }
    }
  }

  lemma ChangeInStep<Id>(s: Store<Id>, name: string, instances: Entries, n: string)
    requires Inv(s) && n in s.params
    ensures var t := Changed(s, name, instances); Registration(t, n) && InStep(t, n)
  {
    assert Registration(s, n) && InStep(s, n);
    if name in s.params { assert Registration(s, name); }
  }

  lemma ChangeKeeps<Id>(s: Store<Id>, name: string, instances: Entries)
    requires Inv(s) && NoClash(s)
    ensures Inv(Changed(s, name, instances)) && NoClash(Changed(s, name, instances))
  {
    var t := Changed(s, name, instances);
    ChangePends(s, name, instances);
    forall n | n in t.params ensures Registration(t, n) && InStep(t, n) { ChangeInStep(s, name, instances, n); }
    if t != s { ChangeOwes(s, name, instances); }
  }

  lemma DeregisterKeeps<Id>(s: Store<Id>, name: string)
    requires Inv(s) && NoClash(s)
    ensures Inv(Deregistered(s, name)) && NoClash(Deregistered(s, name))
    ensures var t := Deregistered(s, name);
      forall n :: Owed(t, n) == if name in s.params && n == name then None else Owed(s, n)
  {
    if name in s.params {
      var t := Deregistered(s, name);
      var id := s.params[name];
      assert Registration(s, name);
      assert forall n | n in s.params :: Registration(s, n) && InStep(s, n);
      forall k | k in t.pending ensures Pends(t, k) { assert k in s.pending ==> Pends(s, k); }
      assert id in t.pending && t.pending[id] == Delete && t.objects[id].name == name;
      forall n | n != name ensures DeletePends(t, n) <==> DeletePends(s, n) {
        if DeletePends(s, n) {
          var d :| d in s.pending && s.pending[d] == Delete && d in s.objects && s.objects[d].name == n;
          assert d in t.pending && t.pending[d] == Delete && t.objects[d].name == n;
        }
      }
    }
  }

  lemma CommitKeeps<Id>(s: Store<Id>, order: seq<Id>)
    requires Inv(s) && NoClash(s) && IsOrder(s, order)
    ensures Inv(Committed(s, order)) && NoClash(Committed(s, order))
    ensures forall n :: Owed(Committed(s, order), n) == Owed(s, n)
  {
    if !s.busy {
      var t := Committed(s, order);
      forall n ensures Owed(t, n) == Owed(s, n) { CommitAt(s, order, n); }
      forall n | n in t.params ensures Registration(t, n) && InStep(t, n) {
        assert Registration(s, n) && InStep(s, n);
        CommitAt(s, order, n);
      }
    }
  }

  // -------------------------------------------------------------- equivalence

  /** The files with everything done, from what is owed for each name. */
  lemma FlushedIs<Id>(s: Store<Id>, files: map<string, Entries>)
    requires forall n :: Owed(s, n) == At(files, n)
    ensures Flushed(s) == files
  {
    forall n ensures n in Flushed(s) <==> n in files { FlushedAt(s, n); assert Owed(s, n) == At(files, n); }
    forall n | n in files ensures Flushed(s)[n] == files[n] { FlushedAt(s, n); assert Owed(s, n) == At(files, n); }
  }

  lemma FlushedSame<Id>(s: Store<Id>, t: Store<Id>)
    requires forall n :: Owed(t, n) == Owed(s, n)
    ensures Flushed(t) == Flushed(s)
  {
    forall n ensures Owed(t, n) == At(Flushed(s), n) { FlushedAt(s, n); }
    FlushedIs(t, Flushed(s));
  }

  lemma FlushedWithout<Id>(s: Store<Id>, t: Store<Id>, name: string)
    requires forall n :: Owed(t, n) == if n == name then None else Owed(s, n)
    ensures Flushed(t) == Flushed(s) - {name}
  {
    forall n ensures Owed(t, n) == At(Flushed(s) - {name}, n) { FlushedAt(s, n); }
    FlushedIs(t, Flushed(s) - {name});
  }

  lemma FlushedWith<Id>(s: Store<Id>, t: Store<Id>, name: string, instances: Entries)
    requires forall n :: Owed(t, n) == if n == name then Some(instances) else Owed(s, n)
    ensures Flushed(t) == Flushed(s)[name := instances]
  {
    forall n ensures Owed(t, n) == At(Flushed(s)[name := instances], n) { FlushedAt(s, n); }
    FlushedIs(t, Flushed(s)[name := instances]);
  }

  ghost predicate AllRegistered<Id>(s: Store<Id>) {
    forall n | n in s.params :: Registration(s, n)
  }

  lemma CachesAfterRegister<Id>(s: Store<Id>, name: string, id: Id)
    requires AllRegistered(s) && id !in s.objects
    ensures name in Caches(s) <==> name in s.params
    ensures name !in s.params ==> Caches(Registered(s, name, id)) == Caches(s)[name := FileOf(s.files, name)]
  {
    assert name in s.params ==> Registration(s, name);
  }

  lemma CachesAfterDeregister<Id>(s: Store<Id>, name: string)
    requires AllRegistered(s)
    ensures name in Caches(s) <==> name in s.params
    ensures Caches(Deregistered(s, name)) == Caches(s) - {name}
  {
    assert name in s.params ==> Registration(s, name);
  }

  lemma ChangedIff<Id>(s: Store<Id>, name: string, instances: Entries)
    requires AllRegistered(s)
    ensures name in Caches(s) <==> name in s.params
    ensures Changed(s, name, instances) != s <==> name in s.params && Caches(s)[name] != instances
  {
    if name in s.params && Caches(s)[name] != instances {
      assert Registration(s, name);
      assert Changed(s, name, instances).objects[s.params[name]].instances != s.objects[s.params[name]].instances;
    }
  }

  lemma ObjectsAfterChange<Id>(s: Store<Id>, name: string, instances: Entries)
    requires AllRegistered(s) && name in s.params && Changed(s, name, instances) != s
    ensures var t := Changed(s, name, instances);
      t.params == s.params && s.params[name] in s.objects && t.objects == s.objects[s.params[name] := Param(name, instances)]
  {
    assert Registration(s, name);
  }

  lemma CachesAfterChange<Id>(s: Store<Id>, name: string, instances: Entries)
    requires AllRegistered(s) && name in s.params && Changed(s, name, instances) != s
    ensures Caches(Changed(s, name, instances)) == Caches(s)[name := instances]
  {
    ObjectsAfterChange(s, name, instances);
    forall n | n in s.params && n != name ensures s.params[n] != s.params[name] {
      assert Registration(s, n) && Registration(s, name);
    }
  }

  lemma RegisterSeen<Id>(s: Store<Id>, name: string, id: Id)
    requires Inv(s) && NoClash(s) && Possible(s, Register(name, id)) && Orderly(s, Register(name, id))
    ensures Seen(Registered(s, name, id)) == WriteThrough(Seen(s), Register(name, id))
  {
    RegisterKeeps(s, name, id);
    FlushedSame(s, Registered(s, name, id));
    if name !in s.params {
      CachesAfterRegister(s, name, id);
      assert FileOf(Flushed(s), name) == FileOf(s.files, name) by { FlushedAt(s, name); }
    } else {
      assert Registration(s, name);
    }
  }

  lemma DeregisterSeen<Id>(s: Store<Id>, name: string)
    requires Inv(s) && NoClash(s)
    ensures Seen(Deregistered(s, name)) == WriteThrough<Id>(Seen(s), Deregister(name))
  {
    CachesAfterDeregister(s, name);
    DeregisterKeeps(s, name);
    if name in s.params { FlushedWithout(s, Deregistered(s, name), name); }
  }

  lemma ChangeSeen<Id>(s: Store<Id>, name: string, instances: Entries)
    requires Inv(s) && NoClash(s)
    ensures Seen(Changed(s, name, instances)) == WriteThrough<Id>(Seen(s), Change(name, instances))
  {
    var t := Changed(s, name, instances);
    ChangedIff(s, name, instances);
    if t != s {
      CachesAfterChange(s, name, instances);
      ChangeOwes(s, name, instances);
      if name == "" { FlushedSame(s, t); } else { FlushedWith(s, t, name, instances); }
    }
  }

  lemma CommitSeen<Id>(s: Store<Id>, order: seq<Id>)
    requires Inv(s) && NoClash(s) && IsOrder(s, order)
    ensures Seen(Committed(s, order)) == Seen(s)
  {
    CommitKeeps(s, order);
    FlushedSame(s, Committed(s, order));
  }

  lemma BusySeen<Id>(s: Store<Id>, busy: bool)
    requires Inv(s) && NoClash(s)
    ensures Inv(s.(busy := busy)) && NoClash(s.(busy := busy)) && Seen(s.(busy := busy)) == Seen(s)
  {
    var t := s.(busy := busy);
    assert forall n | n in s.params :: Registration(s, n) && InStep(s, n);
    assert forall k | k in s.pending :: Pends(s, k);
    forall n ensures DeletePends(t, n) <==> DeletePends(s, n) { DeletesSame(s, t, n); }
    FlushedSame(s, t);
  }

  lemma StepIsWriteThrough<Id>(s: Store<Id>, a: Action<Id>)
    requires Inv(s) && NoClash(s) && Possible(s, a) && Orderly(s, a)
    ensures Inv(Next(s, a)) && NoClash(Next(s, a)) && Seen(Next(s, a)) == WriteThrough(Seen(s), a)
  {
    match a
    case Register(name, id) => RegisterKeeps(s, name, id); RegisterSeen(s, name, id);
    case Deregister(name) => DeregisterKeeps(s, name); DeregisterSeen(s, name);
    case Change(name, instances) => ChangeKeeps(s, name, instances); ChangeSeen(s, name, instances);
    case Commit(order) => CommitKeeps(s, order); CommitSeen(s, order);
    case Seize => BusySeen(s, true);
    case Free => BusySeen(s, false);
  }

  /** Deferred writing is write-through: over any run, with commits in any places and
      any order and the storage seized and freed at will, the caches are the same and
      the files, once what is pending is done, are the same as if every change had
      been written at once. In particular nothing pending means a file equal to the
      cache, and no file for a name removed. */
  lemma {:induction false} DeferredIsWriteThrough<Id>(s: Store<Id>, acts: seq<Action<Id>>)
    requires Inv(s) && NoClash(s) && OrderlyRun(s, acts)
    ensures var t := Run(s, acts);
      && Inv(t) && NoClash(t)
      && Seen(t) == WriteAll(Seen(s), acts)
      && (t.pending == map[] ==> t.files == WriteAll(Seen(s), acts).files)
    decreases |acts|
  {
    if acts == [] {
      if s.pending == map[] {
        FlushedIs(s, s.files);
      }
    } else {
      StepIsWriteThrough(s, acts[0]);
      DeferredIsWriteThrough(Next(s, acts[0]), acts[1..]);
    }
  }

  // ------------------------------------------- registering while deletion pends

  /** A name is registered again as if every change had been written at once, exactly
      when its deletion is not pending, or there is nothing in the file to be seen. */
  lemma ReRegisterIff<Id>(s: Store<Id>, name: string, id: Id)
    requires Inv(s) && name !in s.params && id !in s.objects
    ensures Caches(Registered(s, name, id)) == WriteThrough(Seen(s), Register(name, id)).caches <==>
      !DeletePends(s, name) || FileOf(s.files, name) == map[]
  {
    CachesAfterRegister(s, name, id);
    assert FileOf(Flushed(s), name) == if DeletePends(s, name) then map[] else FileOf(s.files, name) by { FlushedAt(s, name); }
    var (c, x, y) := (Caches(s), FileOf(s.files, name), FileOf(Flushed(s), name));
    assert c[name := x][name] == x && c[name := y][name] == y;
  }

  lemma {:induction false} SomeOrder<Id>(ids: set<Id>) returns (order: seq<Id>)
    ensures Lists(order, ids)
    decreases ids
  {
    if ids == {} {
      order := [];
    } else {
      var id :| id in ids;
      var rest := SomeOrder(ids - {id});
      order := rest + [id];
    }
  }

  lemma LastWins<Id>(s: Store<Id>, order: seq<Id>, id: Id)
    requires id in s.pending && id in s.objects
    ensures At(AllPerformed(s.files, s, order + [id]), s.objects[id].name) == Effect(s, id)
  {
    assert (order + [id])[..|order|] == order;
  }

  lemma ListsTwoMore<Id>(rest: seq<Id>, ids: set<Id>, a: Id, b: Id)
    requires Lists(rest, ids - {a, b}) && a in ids && b in ids && a != b
    ensures Lists(rest + [a] + [b], ids)
  {
    assert forall id | id in rest :: id in ids - {a, b};
  }

  /** Two orders of a save and a deletion of one name end differently. */
  lemma MixMatters<Id>(s: Store<Id>, name: string) returns (o1: seq<Id>, o2: seq<Id>)
    requires Inv(s) && !s.busy && name in s.params && SavePends(s, name) && DeletePends(s, name)
    ensures IsOrder(s, o1) && IsOrder(s, o2) && Committed(s, o1).files != Committed(s, o2).files
  {
    var id := s.params[name];
    var d :| d in s.pending && s.pending[d] == Delete && d in s.objects && s.objects[d].name == name;
    assert Pends(s, id) && Pends(s, d) && Registration(s, name);
    var rest := SomeOrder(s.pending.Keys - {id, d});
    assert {id, d} == {d, id};
    o1, o2 := rest + [d] + [id], rest + [id] + [d];
    ListsTwoMore(rest, s.pending.Keys, d, id);
    ListsTwoMore(rest, s.pending.Keys, id, d);
    LastWins(s, rest + [d], id);
    LastWins(s, rest + [id], d);
  }

  /** The result of a commit does not depend on the order, which is that of the
      objects' addresses, exactly when no name has both a save and a deletion
      pending. */
  lemma OrderMattersIff<Id>(s: Store<Id>)
    requires Inv(s) && !s.busy
    ensures (forall o1, o2 | IsOrder(s, o1) && IsOrder(s, o2) :: Committed(s, o1).files == Committed(s, o2).files) <==>
              NoMix(s)
  {
    if NoMix(s) {
      forall o1, o2 | IsOrder(s, o1) && IsOrder(s, o2) ensures Committed(s, o1).files == Committed(s, o2).files {
        CommitFlushes(s, o1);
        CommitFlushes(s, o2);
      }
    } else {
      var name :| name in s.params && SavePends(s, name) && DeletePends(s, name);
      var o1, o2 := MixMatters(s, name);
    }
  }

  ghost predicate PossibleRun<Id>(s: Store<Id>, acts: seq<Action<Id>>)
    decreases |acts|
  {
    acts == [] || (Possible(s, acts[0]) && PossibleRun(Next(s, acts[0]), acts[1..]))
  }

  /** No files, no parameters. */
  function Empty<Id>(): Store<Id> { Store(map[], map[], map[], map[], false) }

  /** Registering a parameter, removing it, and registering and changing it again before
      a commit. */
  function Again<Id>(name: string, instances: Entries, id: Id, newId: Id): seq<Action<Id>> {
    [Register(name, id), Deregister(name), Register(name, newId), Change(name, instances)]
  }

  /** Both come to be pending for one name, exactly if the new parameter has a name and
      an entry. */
  lemma MixIsReached<Id>(name: string, instances: Entries, id: Id, newId: Id)
    requires id != newId
    ensures var acts := Again(name, instances, id, newId); var s := Run(Empty(), acts);
      && PossibleRun(Empty(), acts) && Inv(s) && !s.busy
      && (!NoMix(s) <==> name != "" && instances != map[])
  {
    var acts := Again(name, instances, id, newId);
    var s1 := Registered(Empty(), name, id);
    var s2 := Deregistered(s1, name);
    var s3 := Registered(s2, name, newId);
    var s4 := Changed(s3, name, instances);
    assert s2.pending == map[id := Delete] && s2.params == map[];
    var rest := [Register(name, newId), Change(name, instances)];
    assert acts[1..] == [Deregister(name)] + rest && acts[1..][1..] == rest && rest[1..] == [Change(name, instances)];
    assert rest[1..][1..] == [] && Run(s3, rest[1..]) == Run(s4, []) == s4;
    assert Run(s2, rest) == s4;
    assert Run(s1, acts[1..]) == s4;
    assert Run(Empty(), acts) == s4;
    assert PossibleRun(s3, [Change(name, instances)]);
    assert s4.objects[id].name == name && s4.pending[id] == Delete && DeletePends(s4, name);
    assert s4.params == map[name := newId];
    assert SavePends(s4, name) <==> name != "" && instances != map[];
  }

  /** Registering, changing, committing and removing a parameter. */
  function Removal<Id>(name: string, instances: Entries, id: Id): seq<Action<Id>> {
    [Register(name, id), Change(name, instances), Commit([id]), Deregister(name)]
  }

  /** That leaves a file behind whose deletion is pending; registered again, the
      parameter has the old entries. */
  lemma StaleReRegisterIsReached<Id>(name: string, instances: Entries, id: Id, newId: Id)
    requires id != newId && name != "" && instances != map[]
    ensures var acts := Removal(name, instances, id); var s := Run(Empty(), acts);
      && PossibleRun(Empty(), acts) && Inv(s) && name !in s.params && newId !in s.objects
      && DeletePends(s, name) && FileOf(s.files, name) == instances
      && name in Caches(Registered(s, name, newId)) && Caches(Registered(s, name, newId))[name] == instances
      && Caches(Registered(s, name, newId)) != WriteThrough(Seen(s), Register(name, newId)).caches
  {
    var acts := Removal(name, instances, id);
    var s1 := Registered(Empty(), name, id);
    var s2 := Changed(s1, name, instances);
    var s3 := Committed(s2, [id]);
    var s4 := Deregistered(s3, name);
    assert s2.pending == map[id := Save] && s2.params == map[name := id] && s2.objects == map[id := Param(name, instances)];
    CommittedOne(s2, id);
    assert s4.pending == map[id := Delete] && s4.params == map[] && s4.objects == map[id := Param(name, map[])];
    FourSteps(Empty(), acts);
    assert s4.pending[id] == Delete && s4.objects[id].name == name && DeletePends(s4, name);
    ReRegisterIff(s4, name, newId);
  }

  lemma CommittedOne<Id>(s: Store<Id>, id: Id)
    requires s.pending == map[id := Save] && id in s.objects && !s.busy
    ensures IsOrder(s, [id])
    ensures Committed(s, [id]) == s.(files := s.files[s.objects[id].name := s.objects[id].instances], pending := map[])
  {
    assert [id][..0] == [];
    assert AllPerformed(s.files, s, [id]) == Performed(AllPerformed(s.files, s, [id][..0]), s, id);
  }

  lemma FourSteps<Id>(s: Store<Id>, acts: seq<Action<Id>>)
    requires |acts| == 4
    ensures Run(s, acts) == Next(Next(Next(Next(s, acts[0]), acts[1]), acts[2]), acts[3])
    ensures PossibleRun(s, acts) <==>
      && Possible(s, acts[0]) && Possible(Next(s, acts[0]), acts[1])
      && Possible(Next(Next(s, acts[0]), acts[1]), acts[2])
      && Possible(Next(Next(Next(s, acts[0]), acts[1]), acts[2]), acts[3])
  {
    var (a, b, c) := (acts[1..], acts[1..][1..], acts[1..][1..][1..]);
    assert a[0] == acts[1] && b[0] == acts[2] && c[0] == acts[3] && c[1..] == [];
    var s1 := Next(s, acts[0]);
    var s2 := Next(s1, acts[1]);
    var s3 := Next(s2, acts[2]);
    assert Run(s3, c) == Next(s3, acts[3]) && (PossibleRun(s3, c) <==> Possible(s3, acts[3]));
    assert Run(s2, b) == Run(s3, c) && (PossibleRun(s2, b) <==> Possible(s2, acts[2]) && PossibleRun(s3, c));
    assert Run(s1, a) == Run(s2, b) && (PossibleRun(s1, a) <==> Possible(s1, acts[1]) && PossibleRun(s2, b));
  }
}
