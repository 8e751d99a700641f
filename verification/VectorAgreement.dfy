/**
 A persistent vector metric over its whole life: it agrees with its slots through
 every sequence of operations, and a metric built from the same table after a
 reboot holds the same vector.
 */
module VectorAgreement {
  import opened Common
  import opened ElemNames
  import opened PersistSlots
  import opened VectorMetric
  import opened VectorState

  /** Clearing the vector keeps its persistence and stores size zero. */
  lemma ClearedAgrees(w: World, c: Names)
    requires Valid(w, c)
    ensures var u := Cleared(w, c);
      Valid(u, c) && Agrees(u, c) && u.v.value == [] && u.v.persist == w.v.persist
  {
    if w.v.persist { ResizeKeeps(w, c, 0); }
  }

  lemma ConstructedSize(t: Table, c: Names)
    requires TableInv(t.slots, t.keymap, c.hash) && Apart(c.name, c.elem)
    ensures Valid(Constructed(t, c), c)
    ensures var (u, slot) := Registered(t, c.name, c.hash);
      slot.Some? ==> slot.value < |u.slots| && Bound(World(Vec([], false, slot, []), u), c)
  {
    RegisterKeeps(t, c.hash, c.name, c.name);
    var (u, slot) := Registered(t, c.name, c.hash);
    if slot.Some? {
      var w := World(Vec([], false, slot, []), u);
      ResizeKeeps(w, c, u.slots[slot.value].value);
      ElemsRegisteredBinds(u, c.hash, c.elem, [], u.slots[slot.value].value);
    }
  }

  /** A new metric takes its vector from the table: it agrees with its slots, and
      each element is what the table held under the element's name. */
  lemma ConstructedAgrees(t: Table, c: Names)
    requires TableInv(t.slots, t.keymap, c.hash) && Apart(c.name, c.elem)
    ensures var w := Constructed(t, c);
      && Valid(w, c) && Agrees(w, c)
      && (w.v.persist ==> |w.v.value| == ValueAt(t.slots, c.hash(c.name)))
      && forall i | 0 <= i < |w.v.value| :: w.v.value[i] == ValueAt(t.slots, c.hash(c.elem(i)))
  {
    ConstructedSize(t, c);
    RegisterKeeps(t, c.hash, c.name, c.name);
    var (u, slot) := Registered(t, c.name, c.hash);
    var w := Constructed(t, c);
    if slot.Some? {
      var v := World(Vec([], false, slot, []), u);
      var n := u.slots[slot.value].value;
      ResizeKeeps(v, c, n);
      ElemsRegisteredBinds(u, c.hash, c.elem, [], n);
      forall i | 0 <= i < |w.v.value|
        ensures w.t.slots[w.v.elems[i]].value == w.v.value[i] == ValueAt(t.slots, c.hash(c.elem(i)))
      {
        ResizeValue(v, c, n, i);
        GrownValue(v, c, n, i);
        RegisterKeeps(t, c.hash, c.name, c.elem(i));
      }
    }
  }

  // ---------------------------------------------------------- after a reboot

  /** A table that still has the metric's slots. */
  ghost predicate KeepsSlots(w: World, c: Names, t: Table)
    requires Valid(w, c) && w.v.persist
  {
    && TableInv(t.slots, t.keymap, c.hash)
    && |w.t.slots| <= |t.slots|
    && (forall i | 0 <= i < |w.t.slots| :: t.slots[i].namehash == w.t.slots[i].namehash)
    && t.slots[w.v.sizeSlot.value].value == w.t.slots[w.v.sizeSlot.value].value
    && (forall i | 0 <= i < |w.v.value| :: t.slots[w.v.elems[i]].value == w.t.slots[w.v.elems[i]].value)
  }

  /** None of the metric's hashes has been taken by another name since the boot. */
  ghost predicate Unclaimed(w: World, c: Names, t: Table) {
    && !Collides(t, c.name, c.hash)
    && (forall i: nat | i < |w.v.value| :: !Collides(t, c.elem(i), c.hash))
  }

  ghost predicate Survives(w: World, c: Names, t: Table)
    requires Valid(w, c) && w.v.persist
  {
    KeepsSlots(w, c, t) && Unclaimed(w, c, t)
  }

  lemma ElemsFoundAgain(w: World, c: Names, t: Table)
    requires Valid(w, c) && w.v.persist && Survives(w, c, t)
    ensures var (u, slot) := Registered(t, c.name, c.hash);
      var n := |w.v.value|;
      && slot == w.v.sizeSlot && u.slots == t.slots
      && Found(ElemsRegistered(u, c.hash, c.elem, [], n), u, c.hash, w.v.elems, n)
  {
    FindUnique(t.slots, w.v.sizeSlot.value);
    RegisterKeepsInv(t, c.name, c.hash);
    var u := Registered(t, c.name, c.hash).0;
    OwnSlotsApart(w, c);
    forall k: nat | k < |w.v.value|
      ensures w.v.elems[k] < |u.slots| && u.slots[w.v.elems[k]].namehash == c.hash(c.elem(k)) && !Collides(u, c.elem(k), c.hash)
    {
      assert BoundTo(w.t, c.hash, c.elem(k), w.v.elems[k]);
    }
    StoredAreFound(u, c.hash, c.elem, w.v.elems, |w.v.value|);
  }

  /** The metric built from such a table holds the same vector, is persistent and
      uses the same slots. */
  lemma RebuiltSame(w: World, c: Names, t: Table)
    requires Valid(w, c) && Agrees(w, c) && w.v.persist && Survives(w, c, t)
    ensures var u := Constructed(t, c);
      && u.v.persist
      && u.v.value == w.v.value
      && u.v.sizeSlot == w.v.sizeSlot && u.v.elems <= w.v.elems
  {
    ElemsFoundAgain(w, c, t);
    var n := |w.v.value|;
    var u := Registered(t, c.name, c.hash).0;
    var p := ElemsRegistered(u, c.hash, c.elem, [], n);
    assert Read(p.t.slots, p.elems) == w.v.value;
  }

  /** An element's hash that another name has taken is refused, and with it all. */
  lemma ClaimedIsRefused(t: Table, c: Names, n: nat, i: nat)
    requires TableInv(t.slots, t.keymap, c.hash) && i < n && Collides(t, c.elem(i), c.hash)
    ensures !ElemsRegistered(t, c.hash, c.elem, [], n).ok
  {
    var h := c.hash(c.elem(i));
    var other := t.keymap[h];
    assert BoundTo(t, c.hash, other, Find(t.slots, h));
    ElemsRegisteredBinds(t, c.hash, c.elem, [], n);
    ElemsRegisteredKeeps(t, c.hash, c.elem, [], n, other);
    var p := ElemsRegistered(t, c.hash, c.elem, [], n);
    assert BoundTo(p.t, c.hash, other, Find(t.slots, h));
    assert p.ok ==> BoundTo(p.t, c.hash, c.elem(i), p.elems[i]);
  }

  lemma RegisterKeepsClaim(t: Table, c: Names, name: string)
    requires TableInv(t.slots, t.keymap, c.hash) && Collides(t, name, c.hash)
    ensures Collides(Registered(t, c.name, c.hash).0, name, c.hash)
  {
  }

  /** A metric built from a table that keeps its slots is persistent and holds the same
      vector exactly if no other name has taken one of its hashes. */
  lemma RebuiltIff(w: World, c: Names, t: Table)
    requires Valid(w, c) && Agrees(w, c) && w.v.persist && KeepsSlots(w, c, t)
    ensures var u := Constructed(t, c); u.v.persist && u.v.value == w.v.value <==> Unclaimed(w, c, t)
  {
    if Unclaimed(w, c, t) {
      RebuiltSame(w, c, t);
    } else if !Collides(t, c.name, c.hash) {
      var i: nat :| i < |w.v.value| && Collides(t, c.elem(i), c.hash);
      var (u, slot) := Registered(t, c.name, c.hash);
      RegisterKeepsClaim(t, c, c.elem(i));
      RegisterKeepsInv(t, c.name, c.hash);
      FindUnique(t.slots, w.v.sizeSlot.value);
      assert slot == w.v.sizeSlot && u.slots == t.slots;
      ClaimedIsRefused(u, c, |w.v.value|, i);
    }
  }

  /** What others do to the table: anything but write to the metric's slots. */
  ghost predicate Foreign(w: World, op: PersistSlots.Op) {
    op.Write? ==> Some(op.slot) != w.v.sizeSlot && op.slot !in w.v.elems
  }

  lemma {:induction false} OthersKeepSlots(w: World, c: Names, t: Table, ops: seq<PersistSlots.Op>)
    requires Valid(w, c) && w.v.persist && KeepsSlots(w, c, t) && forall op | op in ops :: Foreign(w, op)
    ensures KeepsSlots(w, c, AfterAll(t, ops, c.hash))
    decreases |ops|
  {
    if ops != [] {
      var op := ops[0];
      assert op in ops && forall x | x in ops[1..] :: x in ops;
      StepKeepsInv(t, op, c.hash);
      if op.Register? { RegisterKeepsInv(t, op.name, c.hash); }
      assert KeepsSlots(w, c, After(t, op, c.hash));
      OthersKeepSlots(w, c, After(t, op, c.hash), ops[1..]);
    }
  }

  // -------------------------------------------------------------- whole lives

  /** What happens while a metric lives. */
  datatype Deed =
    | SetValue(xs: seq<nat>)
    | SetElemValues(start: nat, xs: seq<nat>)
    | ClearValue
    | Others(op: PersistSlots.Op)

  function Next(w: World, c: Names, d: Deed): World {
    match d
    case SetValue(xs) => Set(w, c, 0, xs, true)
    case SetElemValues(start, xs) => Set(w, c, start, xs, false)
    case ClearValue => Cleared(w, c)
    case Others(op) => w.(t := After(w.t, op, c.hash))
  }

  /** The metric grows without a gap, and others register what they like but write
      only to slots that are not the metric's. */
  ghost predicate Orderly(w: World, c: Names, d: Deed) {
    match d
    case SetElemValues(start, _) => start <= |w.v.value|
    case Others(op) =>
      && !op.Reboot?
      && (op.Write? && w.v.persist ==> Some(op.slot) != w.v.sizeSlot && op.slot !in w.v.elems)
    case _ => true
  }

  function Life(w: World, c: Names, ds: seq<Deed>): World
    decreases |ds|
  {
    if ds == [] then w else Life(Next(w, c, ds[0]), c, ds[1..])
  }

  ghost predicate AllOrderly(w: World, c: Names, ds: seq<Deed>)
    decreases |ds|
  {
    ds == [] || (Orderly(w, c, ds[0]) && AllOrderly(Next(w, c, ds[0]), c, ds[1..]))
  }

  lemma OthersKeep(w: World, c: Names, op: PersistSlots.Op)
    requires Valid(w, c) && Agrees(w, c) && Orderly(w, c, Others(op))
    ensures Valid(Next(w, c, Others(op)), c) && Agrees(Next(w, c, Others(op)), c)
  {
    match op
    case Register(name) =>
      RegisterKeepsInv(w.t, name, c.hash);
      var u := Registered(w.t, name, c.hash).0;
      if w.v.sizeSlot.Some? { RegisterKeepsBinding(w.t, c.hash, name, c.name, w.v.sizeSlot.value); }
      forall k | 0 <= k < |w.v.elems| ensures BoundTo(u, c.hash, c.elem(k), w.v.elems[k]) {
        RegisterKeepsBinding(w.t, c.hash, name, c.elem(k), w.v.elems[k]);
      }
    case Write(i, x) =>
      if i < |w.t.slots| { WriteKeepsBound(w, c, i, x); }
  }

  lemma DeedKeeps(w: World, c: Names, d: Deed)
    requires Valid(w, c) && Agrees(w, c) && Orderly(w, c, d)
    ensures Valid(Next(w, c, d), c) && Agrees(Next(w, c, d), c)
  {
    match d
    case SetValue(xs) => SetAgreesIff(w, c, 0, xs, true);
    case SetElemValues(start, xs) => SetAgreesIff(w, c, start, xs, false);
    case ClearValue => ClearedAgrees(w, c);
    case Others(op) => OthersKeep(w, c, op);
  }

  /** The table after a reboot and whatever others then do. */
  function Rebooted(t: Table, c: Names, ops: seq<PersistSlots.Op>): Table {
    AfterAll(After(t, Reboot, c.hash), ops, c.hash)
  }

  lemma RebuiltLater(w: World, c: Names, ops: seq<PersistSlots.Op>)
    requires Valid(w, c) && Agrees(w, c) && w.v.persist && forall op | op in ops :: Foreign(w, op)
    ensures var t := Rebooted(w.t, c, ops); var r := Constructed(t, c);
      r.v.persist && r.v.value == w.v.value <==> Unclaimed(w, c, t)
  {
    StepKeepsInv(w.t, Reboot, c.hash);
    OthersKeepSlots(w, c, After(w.t, Reboot, c.hash), ops);
    RebuiltIff(w, c, Rebooted(w.t, c, ops));
  }

  /** From its construction on, through any orderly life, a persistent vector agrees
      with its slots.  A metric built after a reboot at any moment of that life, and
      after whatever others have done meanwhile but to its slots, holds the vector as
      it was before the reboot exactly if no other name has taken one of its hashes. */
  lemma {:induction false} LifeAgrees(w: World, c: Names, ds: seq<Deed>, ops: seq<PersistSlots.Op>)
    requires Valid(w, c) && Agrees(w, c) && AllOrderly(w, c, ds)
    ensures var u := Life(w, c, ds);
      && Valid(u, c) && Agrees(u, c)
      && (u.v.persist ==> Constructed(After(u.t, Reboot, c.hash), c).v.value == u.v.value)
      && (u.v.persist && (forall op | op in ops :: Foreign(u, op)) ==>
            var t := Rebooted(u.t, c, ops); var r := Constructed(t, c);
            r.v.persist && r.v.value == u.v.value <==> Unclaimed(u, c, t))
    decreases |ds|
  {
    if ds == [] {
      if w.v.persist { RebuiltLater(w, c, []); }
      if w.v.persist && (forall op | op in ops :: Foreign(w, op)) { RebuiltLater(w, c, ops); }
    } else {
      DeedKeeps(w, c, ds[0]);
      LifeAgrees(Next(w, c, ds[0]), c, ds[1..], ops);
    }
  }

  lemma SameSlotIffSameName(t: Table, hash: string -> int, a: string, b: string, i: nat, j: nat)
    requires BoundTo(t, hash, a, i) && BoundTo(t, hash, b, j)
    ensures i == j <==> a == b
  {
  }

  /** Two vector metrics share a slot exactly where they share a name, be it the
      metric's or an element's. */
  lemma MetricsShareIff(v: World, a: Names, w: World, b: Names)
    requires Valid(v, a) && Valid(w, b) && v.t == w.t && a.hash == b.hash && v.v.persist && w.v.persist
    ensures v.v.sizeSlot == w.v.sizeSlot <==> a.name == b.name
    ensures forall i | 0 <= i < |v.v.elems| :: v.v.elems[i] == w.v.sizeSlot.value <==> a.elem(i) == b.name
    ensures forall i, j | 0 <= i < |v.v.elems| && 0 <= j < |w.v.elems| ::
              v.v.elems[i] == w.v.elems[j] <==> a.elem(i) == b.elem(j)
  {
    var (t, h) := (v.t, a.hash);
    SameSlotIffSameName(t, h, a.name, b.name, v.v.sizeSlot.value, w.v.sizeSlot.value);
    forall i | 0 <= i < |v.v.elems| ensures v.v.elems[i] == w.v.sizeSlot.value <==> a.elem(i) == b.name {
      SameSlotIffSameName(t, h, a.elem(i), b.name, v.v.elems[i], w.v.sizeSlot.value);
    }
    forall i, j | 0 <= i < |v.v.elems| && 0 <= j < |w.v.elems|
      ensures v.v.elems[i] == w.v.elems[j] <==> a.elem(i) == b.elem(j)
    {
      SameSlotIffSameName(t, h, a.elem(i), b.elem(j), v.v.elems[i], w.v.elems[j]);
    }
  }

  lemma NotPersistentIsEmpty(t: Table, c: Names)
    ensures !Constructed(t, c).v.persist ==> Constructed(t, c).v.value == []
  {
  }

  /** An element that is refused a slot costs the metric its persistence, not its vector;
      and the metric built after a reboot is empty. */
  lemma RefusedIsForgotten(w: World, c: Names, n: nat)
    requires Valid(w, c) && w.v.persist && !ElemsRegistered(w.t, c.hash, c.elem, w.v.elems, n).ok
    ensures var u := PersistResized(w, c, n);
      && u.v == Vec(w.v.value, false, None, [])
      && ValueAt(u.t.slots, c.hash(c.name)) == 0
      && Constructed(After(u.t, Reboot, c.hash), c).v.value == []
  {
    var u := PersistResized(w, c, n);
    var size := w.v.sizeSlot.value;
    ElemsRegisteredBinds(w.t, c.hash, c.elem, w.v.elems, n);
    ElemsRegisteredKeeps(w.t, c.hash, c.elem, w.v.elems, n, c.name);
    var p := ElemsRegistered(w.t, c.hash, c.elem, w.v.elems, n);
    assert BoundTo(p.t, c.hash, c.name, size);
    StepKeepsInv(p.t, Write(size, 0), c.hash);
    FindUnique(u.t.slots, size);
    assert u.t.slots[size].namehash == c.hash(c.name) && u.t.slots[size].value == 0;
    StepKeepsInv(u.t, Reboot, c.hash);
    ConstructedAgrees(After(u.t, Reboot, c.hash), c);
    NotPersistentIsEmpty(After(u.t, Reboot, c.hash), c);
  }
}
