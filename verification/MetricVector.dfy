/**
 `OvmsMetricVector`: a vector metric whose size and elements are mirrored into
 slots of the persistent table. Each method does what the corresponding operation
 of `VectorState` says.
 */
module MetricVector {
  import opened Common
  import opened ElemNames
  import opened PersistSlots
  import opened VectorMetric
  import VectorState
  import VectorAgreement

  class OvmsMetricVector {
    const pm: PMetrics
    const name: string
    const elemName: nat -> string
    var value: seq<nat>
    var persist: bool
    var sizeSlot: Option<nat>
    var elems: seq<nat>
    var defined: bool

    ghost function Now(): VectorState.World
      reads this, pm, pm.values
    {
      VectorState.World(VectorState.Vec(value, persist, sizeSlot, elems), pm.Contents())
    }

    ghost function Names(): VectorState.Names {
      VectorState.Names(pm.hash, name, elemName)
    }

    ghost predicate Bound()
      reads this, pm, pm.values
    {
      pm.Valid() && VectorState.Bound(Now(), Names())
    }

    ghost predicate Valid()
      reads this, pm, pm.values
    {
      pm.Valid() && VectorState.Valid(Now(), Names())
    }

    constructor (pm: PMetrics, name: string, wanted: bool)
      requires pm.Valid() && |name| <= 96
      modifies pm`used, pm`keymap, pm.values
      ensures Valid() && this.pm == pm && this.name == name && elemName == Namer(name)
      ensures Now() == if wanted then VectorState.Constructed(old(pm.Contents()), Names())
                       else VectorState.World(VectorState.FRESH, old(pm.Contents()))
      ensures defined <==> value != []
    {
      this.pm, this.name, elemName := pm, name, Namer(name);
      value, persist, sizeSlot, elems, defined := [], false, None, [], false;
      new;
      ElemNamesDistinct(name);
      if !wanted {
        return;
      }
      VectorAgreement.ConstructedSize(pm.Contents(), Names());
      sizeSlot := pm.Register(name);
      if sizeSlot.None? {
        return;
      }
      var size := pm.values[sizeSlot.value].value;
      defined := SetPersistSize(size);
    }

    /** Registers the elements up to `newSize` that have no slot yet, and stores the
        size. One refusal ends the metric's persistence. A metric not yet
        persistent takes its elements from the table. */
    method SetPersistSize(newSize: nat) returns (grown: bool)
      requires Bound() && (persist || value == elems == [])
      modifies this`value, this`persist, this`sizeSlot, this`elems, pm`used, pm`keymap, pm.values
      ensures Bound()
      ensures Now() == VectorState.PersistResized(old(Now()), Names(), newSize)
      ensures grown <==> old(sizeSlot).Some? && persist && newSize > |old(elems)|
    {
      if sizeSlot.None? {
        return false;
      }
      if newSize <= |elems| {
        StoreSize(newSize);
        persist := true;
        assert value == VectorState.PersistResized(old(Now()), Names(), newSize).v.value;
        return false;
      }
      grown := Grow(newSize);
    }

    /** How far the registration loop has come: the elements up to `|elems|` are
        registered, and read from the table unless the metric was persistent. */
    ghost predicate Growing(before: VectorState.World, newSize: nat)
      reads this, pm, pm.values
    {
      && Bound()
      && sizeSlot == before.v.sizeSlot && sizeSlot.Some? && persist == before.v.persist
      && |before.v.elems| <= |elems| <= newSize
      && Progress(pm.Contents(), elems, true) == ElemsRegistered(before.t, pm.hash, elemName, before.v.elems, |elems|)
      && (if persist then value == before.v.value
          else |value| == newSize && value[..|elems|] == VectorState.Read(pm.Slots(), elems))
    }

    ghost predicate Refused(before: VectorState.World, newSize: nat)
      reads this, pm, pm.values
    {
      Progress(pm.Contents(), elems, false) == ElemsRegistered(before.t, pm.hash, elemName, before.v.elems, newSize)
    }

    method Grow(newSize: nat) returns (grown: bool)
      requires Bound() && (persist || value == elems == []) && sizeSlot.Some? && |elems| < newSize
      modifies this`value, this`persist, this`sizeSlot, this`elems, pm`used, pm`keymap, pm.values
      ensures Bound()
      ensures Now() == VectorState.PersistResized(old(Now()), Names(), newSize)
      ensures grown == persist
    {
      ghost var before := Now();
      if !persist {
        value := VectorState.Resized(value, newSize);
      }
      grown := RegisterRest(before, newSize);
      if !grown {
        LosePersistence();
        return;
      }
      StoreSize(newSize);
      persist := true;
    }

    method RegisterRest(ghost before: VectorState.World, newSize: nat) returns (ok: bool)
      requires Growing(before, newSize) && |elems| < newSize
      modifies this`value, this`elems, pm`used, pm`keymap, pm.values
      ensures Bound() && (persist ==> value == before.v.value)
      ensures if ok then Growing(before, newSize) && |elems| == newSize else Refused(before, newSize)
    {
      while |elems| < newSize
        invariant Growing(before, newSize)
        decreases newSize - |elems|
      {
        ok := GrowByOne(before, newSize);
        if !ok {
          return;
        }
      }
      ok := true;
    }

    /** The body of the loop: registers the next element and reads it. */
    method GrowByOne(ghost before: VectorState.World, newSize: nat) returns (ok: bool)
      requires Growing(before, newSize) && |elems| < newSize
      modifies this`value, this`elems, pm`used, pm`keymap, pm.values
      ensures ok ==> Growing(before, newSize) && |elems| == |old(elems)| + 1
      ensures !ok ==> Bound() && value == old(value) && Refused(before, newSize)
    {
      var i := |elems|;
      ok := AddElem();
      assert Progress(pm.Contents(), elems, ok) == ElemsRegistered(before.t, pm.hash, elemName, before.v.elems, i + 1);
      if !ok {
        RefusalStays(before.t, pm.hash, elemName, before.v.elems, i + 1, newSize);
        return;
      }
      if !persist {
        var x := pm.values[elems[i]].value;
        value := value[i := x];
        assert value[..i + 1] == old(value[..i]) + [x];
      }
    }

    /** Registers the next element. */
    method AddElem() returns (ok: bool)
      requires Bound() && sizeSlot.Some?
      modifies this`elems, pm`used, pm`keymap, pm.values
      ensures Bound()
      ensures Progress(pm.Contents(), elems, ok) ==
        RegisterElem(old(Progress(pm.Contents(), elems, true)), pm.hash, elemName(|old(elems)|))
      ensures ok ==> VectorState.Read(pm.Slots(), elems) ==
                       VectorState.Read(old(pm.Slots()), old(elems)) + [pm.Slots()[elems[|old(elems)|]].value]
    {
      ghost var p := Progress(pm.Contents(), elems, true);
      RegisterElemBinds(p, pm.hash, elemName);
      RegisterElemKeeps(p, pm.hash, elemName(|elems|), name);
      var slot := pm.Register(elemName(|elems|));
      ok := slot.Some?;
      if ok {
        VectorState.ReadGrows(p.t.slots, pm.Slots(), p.elems, slot.value);
        elems := elems + [slot.value];
      }
    }

    /** An element could not be registered: the whole vector is no longer persistent. */
    method LosePersistence()
      requires Bound() && sizeSlot.Some?
      modifies this`value, this`persist, this`sizeSlot, this`elems, pm.values
      ensures Bound() && !persist && sizeSlot == None && elems == []
      ensures value == if old(persist) then old(value) else []
      ensures pm.Contents() == After(old(pm.Contents()), Write(old(sizeSlot).value, 0), pm.hash)
    {
      StoreSize(0);
      sizeSlot, elems := None, [];
      if !persist {
        value := [];
      }
      persist := false;
    }

    /** `*m_valuep_size = n`. */
    method StoreSize(n: nat)
      requires Bound() && sizeSlot.Some?
      modifies pm.values
      ensures Bound() && pm.Contents() == After(old(pm.Contents()), Write(sizeSlot.value, n), pm.hash)
    {
      VectorState.WriteKeepsBound(Now(), Names(), sizeSlot.value, n);
      pm.SetSlot(sizeSlot.value, n);
    }

    /** Writes an element, also to its slot if the metric is persistent. */
    method StoreElem(i: nat, x: nat)
      requires Valid() && i < |value|
      modifies this`value, pm.values
      ensures Valid() && Now() == VectorState.ElemStored(old(Now()), Names(), i, x)
    {
      VectorState.ElemStoredKeeps(Now(), Names(), i, x);
      value := value[i := x];
      if persist {
        pm.SetSlot(elems[i], x);
      }
    }

    /** The setters' loop. */
    method StoreAll(start: nat, xs: seq<nat>, resized: bool) returns (modified: bool)
      requires Valid() && start + |xs| <= |value|
      modifies this`value, pm.values
      ensures Valid() && Now() == VectorState.Stored(old(Now()), Names(), start, xs, resized, |xs|)
      ensures modified <==> !VectorState.Unchanged(old(value), start, xs, resized, |xs|)
    {
      ghost var before := Now();
      modified := false;
      var i := 0;
      while i < |xs|
        invariant i <= |xs| && Valid()
        invariant Now() == VectorState.Stored(before, Names(), start, xs, resized, i)
        invariant modified <==> !VectorState.Unchanged(before.v.value, start, xs, resized, i)
      {
        VectorState.UnchangedNext(before.v.value, start, xs, resized, i);
        var stored := StoreNext(before, start, xs, resized, i);
        modified := modified || stored;
        i := i + 1;
      }
    }

    method StoreNext(ghost before: VectorState.World, start: nat, xs: seq<nat>, resized: bool, i: nat) returns (stored: bool)
      requires VectorState.Valid(before, Names()) && i < |xs| && start + |xs| <= |before.v.value|
      requires Valid() && Now() == VectorState.Stored(before, Names(), start, xs, resized, i)
      modifies this`value, pm.values
      ensures Valid() && Now() == VectorState.Stored(before, Names(), start, xs, resized, i + 1)
      ensures stored <==> resized || before.v.value[start + i] != xs[i]
    {
      VectorState.StoredStep(before, Names(), start, xs, resized, i);
      stored := resized || value[start + i] != xs[i];
      if stored {
        StoreElem(start + i, xs[i]);
      }
    }

    /** `SetValue` with a vector. */
    method SetValue(xs: seq<nat>) returns (modified: bool)
      requires Valid()
      modifies this`value, this`persist, this`sizeSlot, this`elems, this`defined, pm`used, pm`keymap, pm.values
      ensures Valid() && Now() == VectorState.Set(old(Now()), Names(), 0, xs, true)
      ensures value == xs && defined
      ensures modified <==> xs != [] && old(value) != xs
    {
      VectorState.SetIsValid(Now(), Names(), 0, xs, true);
      VectorState.BaseKeeps(Now(), Names(), |xs|, true);
      var resized := |value| != |xs|;
      if resized {
        value := VectorState.Resized(value, |xs|);
        if persist {
          var grown := SetPersistSize(|xs|);
        }
      }
      modified := StoreAll(0, xs, resized);
      defined := true;
    }

    /** `SetElemValues`; `SetElemValue` is the same with one element. */
    method SetElemValues(start: nat, xs: seq<nat>) returns (modified: bool)
      requires Valid()
      modifies this`value, this`persist, this`sizeSlot, this`elems, this`defined, pm`used, pm`keymap, pm.values
      ensures Valid() && Now() == VectorState.Set(old(Now()), Names(), start, xs, false)
      ensures |value| == (if |old(value)| < start + |xs| then start + |xs| else |old(value)|)
      ensures value[start..start + |xs|] == xs && defined
      ensures modified <==>
        xs != [] && (|old(value)| < start + |xs| || old(value)[start..start + |xs|] != xs)
    {
      VectorState.SetIsValid(Now(), Names(), start, xs, false);
      VectorState.BaseKeeps(Now(), Names(), start + |xs|, false);
      var resized := |value| < start + |xs|;
      if resized {
        value := VectorState.Resized(value, start + |xs|);
        if persist {
          var grown := SetPersistSize(start + |xs|);
        }
      }
      modified := StoreAll(start, xs, resized);
      defined := true;
    }

    method ClearValue()
      requires Valid()
      modifies this`value, this`persist, this`sizeSlot, this`elems, this`defined, pm`used, pm`keymap, pm.values
      ensures Valid() && Now() == if defined then VectorState.Cleared(old(Now()), Names()) else old(Now())
      ensures defined == old(defined)
    {
      if defined {
        VectorAgreement.ClearedAgrees(Now(), Names());
        if persist {
          var grown := SetPersistSize(0);
        }
        value := [];
      }
    }

    /** Whether the table still agrees with the metric: size, elements, and that both
        are found where the metric's pointers say. */
    method CheckPersist() returns (ok: bool)
      requires Valid()
      ensures ok <==> (persist && defined ==> VectorState.Agrees(Now(), Names()))
    {
      if !persist || sizeSlot.None? || !defined {
        return true;
      }
      if pm.values[sizeSlot.value].value != |value| {
        return false;
      }
      var found := pm.FindHash(pm.hash(name));
      if found >= pm.used || found != sizeSlot.value {
        assert false;
        return false;
      }
      var i := 0;
      while i < |value|
        invariant i <= |value|
        invariant forall k | 0 <= k < i :: pm.Slots()[elems[k]].value == value[k]
      {
        assert BoundTo(pm.Contents(), pm.hash, elemName(i), elems[i]);
        if pm.values[elems[i]].value != value[i] {
          return false;
        }
        i := i + 1;
      }
      i := 0;
      while i < |value|
        invariant i <= |value|
      {
        assert BoundTo(pm.Contents(), pm.hash, elemName(i), elems[i]);
        found := pm.FindHash(pm.hash(elemName(i)));
        if found >= pm.used || found != elems[i] {
          assert false;
          return false;
        }
        i := i + 1;
      }
      ok := true;
    }
  }

  /** A metric, a reboot, and the metric built anew from the surviving table. */
  method Reboot(m: OvmsMetricVector) returns (rebuilt: OvmsMetricVector)
    requires m.Valid() && m.elemName == Namer(m.name) && |m.name| <= 96
    requires VectorState.Agrees(m.Now(), m.Names()) && m.persist
    modifies m.pm`used, m.pm`keymap, m.pm.values
    ensures rebuilt.Valid() && rebuilt.pm == m.pm && rebuilt.persist
    ensures rebuilt.value == old(m.value)
    ensures VectorState.Agrees(rebuilt.Now(), rebuilt.Names())
  {
    StepKeepsInv(m.pm.Contents(), PersistSlots.Reboot, m.pm.hash);
    ghost var t := After(m.pm.Contents(), PersistSlots.Reboot, m.pm.hash);
    VectorAgreement.RebuiltSame(m.Now(), m.Names(), t);
    VectorAgreement.ConstructedAgrees(t, m.Names());
    m.pm.Restart();
    rebuilt := new OvmsMetricVector(m.pm, m.name, true);
  }
}
