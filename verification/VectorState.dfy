/**
 What the operations of a persistent vector metric do to the vector and to the
 table, and how the two stay in agreement.
 */
module VectorState {
  import opened Common
  import opened ElemNames
  import opened PersistSlots
  import opened VectorMetric

  /** `m_value`, `m_persist`, `m_valuep_size` and `m_valuep_elem`. */
  datatype Vec = Vec(value: seq<nat>, persist: bool, sizeSlot: Option<nat>, elems: seq<nat>)

  /** A metric and the table it shares with the others. */
  datatype World = World(v: Vec, t: Table)

  /** What does not change over a metric's life: the hash, the metric's name and its
      element names. */
  datatype Names = Names(hash: string -> int, name: string, elem: nat -> string)

  const FRESH := Vec([], false, None, [])

  // ------------------------------------------------------------ the operations

  /** `std::vector::resize`. */
  function Resized(v: seq<nat>, n: nat): (r: seq<nat>)
    ensures |r| == n
  {
    if n <= |v| then v[..n] else v + seq(n - |v|, _ => 0)
  }

  function Read(slots: seq<Slot>, elems: seq<nat>): (r: seq<nat>)
    ensures |r| == |elems|
  {
    seq(|elems|, i requires 0 <= i < |elems| => if elems[i] < |slots| then slots[elems[i]].value else 0)
  }

  lemma ReadGrows(a: seq<Slot>, b: seq<Slot>, elems: seq<nat>, e: nat)
    requires a <= b && e < |b| && forall i | 0 <= i < |elems| :: elems[i] < |a|
    ensures Read(b, elems + [e]) == Read(a, elems) + [b[e].value]
  {
  }

  /** `SetPersistSize`. */
  function PersistResized(w: World, c: Names, n: nat): World {
    if w.v.sizeSlot.None? then w
    else
      var size := w.v.sizeSlot.value;
      var p := ElemsRegistered(w.t, c.hash, c.elem, w.v.elems, n);
      if !p.ok then
        World(Vec(if w.v.persist then w.v.value else [], false, None, []), After(p.t, Write(size, 0), c.hash))
      else
        World(Vec(if w.v.persist then w.v.value else Read(p.t.slots, p.elems), true, w.v.sizeSlot, p.elems),
              After(p.t, Write(size, n), c.hash))
  }

  /** One element written, in the vector and, if the metric is persistent, in its
      slot. */
  function ElemStored(w: World, c: Names, i: nat, x: nat): World {
    if i >= |w.v.value| then w
    else
      World(w.v.(value := w.v.value[i := x]),
            if w.v.persist && i < |w.v.elems| then After(w.t, Write(w.v.elems[i], x), c.hash) else w.t)
  }

  /** The loop of the setters after `k` elements: those that differ are written, or
      all of them if the vector has been resized. */
  function Stored(w: World, c: Names, start: nat, xs: seq<nat>, resized: bool, k: nat): World
    requires k <= |xs|
  {
    if k == 0 then w
    else
      var u := Stored(w, c, start, xs, resized, k - 1);
      var i := start + k - 1;
      if resized || i >= |u.v.value| || u.v.value[i] != xs[k - 1] then ElemStored(u, c, i, xs[k - 1]) else u
  }

  /** Whether the loop writes none of the first `k` elements. */
  ghost predicate Unchanged(value: seq<nat>, start: nat, xs: seq<nat>, resized: bool, k: nat)
    requires k <= |xs| && start + |xs| <= |value|
  {
    k == 0 || (!resized && value[start..start + k] == xs[..k])
  }

  lemma UnchangedNext(value: seq<nat>, start: nat, xs: seq<nat>, resized: bool, k: nat)
    requires k < |xs| && start + |xs| <= |value|
    ensures Unchanged(value, start, xs, resized, k + 1) <==>
      Unchanged(value, start, xs, resized, k) && !resized && value[start + k] == xs[k]
  {
    assert value[start..start + k + 1] == value[start..start + k] + [value[start + k]];
    assert xs[..k + 1] == xs[..k] + [xs[k]];
  }

  function ResizedTo(w: World, c: Names, n: nat): World {
    var u := w.(v := w.v.(value := Resized(w.v.value, n)));
    if w.v.persist then PersistResized(u, c, n) else u
  }

  predicate Resizes(w: World, n: nat, exact: bool) {
    if exact then |w.v.value| != n else |w.v.value| < n
  }

  /** Where the setter's loop starts from. */
  function Base(w: World, c: Names, n: nat, exact: bool): World {
    if Resizes(w, n, exact) then ResizedTo(w, c, n) else w
  }

  /** `SetValue(xs)` is `Set(w, c, 0, xs, true)`; `SetElemValues(start, xs)` is
      `Set(w, c, start, xs, false)`, and `SetElemValue` the same with one element. */
  function Set(w: World, c: Names, start: nat, xs: seq<nat>, exact: bool): World {
    var n := start + |xs|;
    Stored(Base(w, c, n, exact), c, start, xs, Resizes(w, n, exact), |xs|)
  }

  /** `ClearValue` of a defined metric. */
  function Cleared(w: World, c: Names): World {
    var u := if w.v.persist then PersistResized(w, c, 0) else w;
    u.(v := u.v.(value := []))
  }

  /** The constructor of a metric that asks for persistence. */
  function Constructed(t: Table, c: Names): World {
    var (u, slot) := Registered(t, c.name, c.hash);
    if slot.None? || slot.value >= |u.slots| then World(FRESH, u)
    else PersistResized(World(Vec([], false, slot, []), u), c, u.slots[slot.value].value)
  }

  // ----------------------------------------------------------- the invariant

  /** The slots in use are bound to the metric's own names. */
  ghost predicate Bound(w: World, c: Names) {
    && TableInv(w.t.slots, w.t.keymap, c.hash)
    && Apart(c.name, c.elem)
    && ElemsBound(w.t, c.hash, c.elem, w.v.elems)
    && (w.v.sizeSlot.Some? ==> BoundTo(w.t, c.hash, c.name, w.v.sizeSlot.value))
  }

  ghost predicate Valid(w: World, c: Names) {
    && Bound(w, c)
    && (w.v.persist <==> w.v.sizeSlot.Some?)
    && (if w.v.persist then |w.v.value| <= |w.v.elems| else w.v.elems == [])
  }

  /** While the metric is persistent, the table holds its size and its elements. */
  ghost predicate Agrees(w: World, c: Names)
    requires Valid(w, c)
  {
    w.v.persist ==>
      && w.t.slots[w.v.sizeSlot.value].value == |w.v.value|
      && forall i | 0 <= i < |w.v.value| :: w.t.slots[w.v.elems[i]].value == w.v.value[i]
  }

  /** The size slot and the element slots are pairwise distinct. */
  lemma OwnSlotsApart(w: World, c: Names)
    requires Bound(w, c) && w.v.sizeSlot.Some?
    ensures Distinct([w.v.sizeSlot.value] + w.v.elems) && |w.v.elems| < NUM_PERSISTENT_VALUES
    ensures forall i | 0 <= i < |w.v.elems| :: w.v.elems[i] != w.v.sizeSlot.value
    ensures forall i, j | 0 <= i < j < |w.v.elems| :: w.v.elems[i] != w.v.elems[j]
  {
    var all := [w.v.sizeSlot.value] + w.v.elems;
    SlotsApart(w.t, c.hash, c.name, c.elem, w.v.sizeSlot.value, w.v.elems);
    forall i | 0 <= i < |w.v.elems| ensures w.v.elems[i] != w.v.sizeSlot.value { assert all[0] != all[i + 1]; }
    forall i, j | 0 <= i < j < |w.v.elems| ensures w.v.elems[i] != w.v.elems[j] { assert all[i + 1] != all[j + 1]; }
  }

  lemma WriteKeepsBound(w: World, c: Names, i: nat, x: nat)
    requires Bound(w, c) && i < |w.t.slots|
    ensures Bound(w.(t := After(w.t, Write(i, x), c.hash)), c)
  {
    StepKeepsInv(w.t, Write(i, x), c.hash);
    AllWriteKeepsBindings(w.t, c.hash, i, x, c.elem, w.v.elems);
    if w.v.sizeSlot.Some? { WriteKeepsBinding(w.t, c.hash, i, x, c.name, w.v.sizeSlot.value); }
  }

  // --------------------------------------------------------------- resizing

  /** The metric with the elements registered, before the size is stored. */
  function Grown(w: World, c: Names, n: nat): World {
    var p := ElemsRegistered(w.t, c.hash, c.elem, w.v.elems, n);
    World(w.v.(elems := p.elems), p.t)
  }

  lemma GrownKeeps(w: World, c: Names, n: nat)
    requires Bound(w, c)
    ensures Bound(Grown(w, c, n), c)
    ensures w.t.slots <= Grown(w, c, n).t.slots
    ensures w.v.elems <= Grown(w, c, n).v.elems
    ensures ElemsRegistered(w.t, c.hash, c.elem, w.v.elems, n).ok ==> n <= |Grown(w, c, n).v.elems|
  {
    ElemsRegisteredBinds(w.t, c.hash, c.elem, w.v.elems, n);
    ElemsRegisteredKeeps(w.t, c.hash, c.elem, w.v.elems, n, c.name);
  }

  lemma GrownValue(w: World, c: Names, n: nat, i: nat)
    requires Bound(w, c) && i < |Grown(w, c, n).v.elems|
    ensures var u := Grown(w, c, n);
      u.v.elems[i] < |u.t.slots| && u.t.slots[u.v.elems[i]].value == ValueAt(w.t.slots, c.hash(c.elem(i)))
  {
    GrownKeeps(w, c, n);
    ElemsRegisteredKeeps(w.t, c.hash, c.elem, w.v.elems, n, c.elem(i));
  }

  /** After a resize the bindings hold; if the metric is persistent the size slot
      holds the size and each element slot what the table held for its name. */
  lemma ResizeKeeps(w: World, c: Names, n: nat)
    requires Bound(w, c) && w.v.sizeSlot.Some?
    ensures var u := PersistResized(w, c, n);
      && Bound(u, c)
      && u.v.persist == ElemsRegistered(w.t, c.hash, c.elem, w.v.elems, n).ok
      && (u.v.persist <==> u.v.sizeSlot.Some?)
      && (if u.v.persist then n <= |u.v.elems| else u.v.elems == [])
      && (u.v.persist ==> u.v.sizeSlot == w.v.sizeSlot && u.t.slots[u.v.sizeSlot.value].value == n)
  {
    GrownKeeps(w, c, n);
    var g := Grown(w, c, n);
    if ElemsRegistered(w.t, c.hash, c.elem, w.v.elems, n).ok {
      WriteKeepsBound(g, c, w.v.sizeSlot.value, n);
    } else {
      WriteKeepsBound(g, c, w.v.sizeSlot.value, 0);
    }
  }

  /** Storing the size leaves the element slots alone. */
  lemma SizeLeavesElems(g: World, c: Names, n: nat, i: nat)
    requires Bound(g, c) && g.v.sizeSlot.Some? && i < |g.v.elems|
    ensures var t := After(g.t, Write(g.v.sizeSlot.value, n), c.hash);
      g.v.elems[i] < |t.slots| == |g.t.slots| && t.slots[g.v.elems[i]] == g.t.slots[g.v.elems[i]]
  {
    OwnSlotsApart(g, c);
  }

  lemma ResizeIsGrown(w: World, c: Names, n: nat)
    requires w.v.sizeSlot.Some? && PersistResized(w, c, n).v.persist
    ensures var (g, u) := (Grown(w, c, n), PersistResized(w, c, n));
      g.v.sizeSlot == w.v.sizeSlot && u.v.elems == g.v.elems && u.t == After(g.t, Write(g.v.sizeSlot.value, n), c.hash)
  {
  }

  lemma ResizeValue(w: World, c: Names, n: nat, i: nat)
    requires Bound(w, c) && w.v.sizeSlot.Some?
    requires PersistResized(w, c, n).v.persist && i < |PersistResized(w, c, n).v.elems|
    ensures var u := PersistResized(w, c, n);
      u.v.elems[i] < |u.t.slots| && u.t.slots[u.v.elems[i]].value == ValueAt(w.t.slots, c.hash(c.elem(i)))
  {
    ResizeIsGrown(w, c, n);
    assert Bound(Grown(w, c, n), c) by { GrownKeeps(w, c, n); }
    GrownValue(w, c, n, i);
    SizeLeavesElems(Grown(w, c, n), c, n, i);
  }

  // -------------------------------------------------------- writing elements

  lemma ElemStoredKeeps(w: World, c: Names, i: nat, x: nat)
    requires Valid(w, c) && i < |w.v.value|
    ensures Valid(ElemStored(w, c, i, x), c)
    ensures |ElemStored(w, c, i, x).t.slots| == |w.t.slots|
  {
    if w.v.persist { WriteKeepsBound(w, c, w.v.elems[i], x); }
  }

  lemma ElemStoredSlot(w: World, c: Names, i: nat, x: nat, j: nat)
    requires Valid(w, c) && w.v.persist && i < |w.v.value| && j < |w.v.value|
    ensures var u := ElemStored(w, c, i, x);
      && |u.t.slots| == |w.t.slots|
      && u.t.slots[w.v.elems[j]].value == (if j == i then x else w.t.slots[w.v.elems[j]].value)
      && u.t.slots[w.v.sizeSlot.value].value == w.t.slots[w.v.sizeSlot.value].value
  {
    OwnSlotsApart(w, c);
  }

  /** The loop writes the elements given, one after the other, and changes nothing
      else of the metric. */
  lemma {:induction false} StoredVec(w: World, c: Names, start: nat, xs: seq<nat>, resized: bool, k: nat)
    requires Valid(w, c) && k <= |xs| && start + |xs| <= |w.v.value|
    ensures var u := Stored(w, c, start, xs, resized, k);
      && Valid(u, c)
      && u.v == w.v.(value := w.v.value[..start] + xs[..k] + w.v.value[start + k..])
      && |u.t.slots| == |w.t.slots|
  {
    if k > 0 {
      StoredVec(w, c, start, xs, resized, k - 1);
      var u := Stored(w, c, start, xs, resized, k - 1);
      ElemStoredKeeps(u, c, start + k - 1, xs[k - 1]);
      assert u.v.value[start + k - 1 := xs[k - 1]] == w.v.value[..start] + xs[..k] + w.v.value[start + k..];
    } else {
      assert w.v.value == w.v.value[..start] + xs[..0] + w.v.value[start..];
    }
  }

  /** One round of the loop. */
  lemma StoredStep(w: World, c: Names, start: nat, xs: seq<nat>, resized: bool, k: nat)
    requires Valid(w, c) && k < |xs| && start + |xs| <= |w.v.value|
    ensures var u := Stored(w, c, start, xs, resized, k);
      && start + k < |u.v.value| && u.v.value[start + k] == w.v.value[start + k]
      && Stored(w, c, start, xs, resized, k + 1) ==
           if resized || w.v.value[start + k] != xs[k] then ElemStored(u, c, start + k, xs[k]) else u
  {
    StoredVec(w, c, start, xs, resized, k);
    assert (w.v.value[..start] + xs[..k] + w.v.value[start + k..])[start + k] == w.v.value[start + k];
  }

  /** What the slot of element `i` holds after `k` steps of the loop. */
  function SlotAfter(w: World, start: nat, xs: seq<nat>, resized: bool, k: nat, i: nat): nat
    requires k <= |xs| && i < |w.v.value| && i < |w.v.elems| && w.v.elems[i] < |w.t.slots|
  {
    if start <= i < start + k && (resized || w.v.value[i] != xs[i - start]) then xs[i - start]
    else w.t.slots[w.v.elems[i]].value
  }

  /** What the slots of element `i` and of the size hold after `k` steps. */
  ghost predicate SlotsHold(w: World, u: World, i: nat, x: nat, size: nat)
    requires i < |w.v.elems| && w.v.sizeSlot.Some?
  {
    && w.v.elems[i] < |u.t.slots| && u.t.slots[w.v.elems[i]].value == x
    && w.v.sizeSlot.value < |u.t.slots| && u.t.slots[w.v.sizeSlot.value].value == size
  }

  lemma StoredStepSlot(w: World, c: Names, start: nat, xs: seq<nat>, resized: bool, k: nat, i: nat, x: nat, size: nat)
    requires Valid(w, c) && w.v.persist && k < |xs| && start + |xs| <= |w.v.value| && i < |w.v.value|
    requires SlotsHold(w, Stored(w, c, start, xs, resized, k), i, x, size)
    ensures SlotsHold(w, Stored(w, c, start, xs, resized, k + 1), i,
                      if i == start + k && (resized || w.v.value[i] != xs[k]) then xs[k] else x, size)
  {
    StoredVec(w, c, start, xs, resized, k);
    StoredStep(w, c, start, xs, resized, k);
    ElemStoredSlot(Stored(w, c, start, xs, resized, k), c, start + k, xs[k], i);
  }

  lemma {:induction false} StoredSlot(w: World, c: Names, start: nat, xs: seq<nat>, resized: bool, k: nat, i: nat)
    requires Valid(w, c) && w.v.persist && k <= |xs| && start + |xs| <= |w.v.value| && i < |w.v.value|
    ensures SlotsHold(w, Stored(w, c, start, xs, resized, k), i, SlotAfter(w, start, xs, resized, k, i),
                      w.t.slots[w.v.sizeSlot.value].value)
  {
    if k > 0 {
      StoredSlot(w, c, start, xs, resized, k - 1, i);
      StoredStepSlot(w, c, start, xs, resized, k - 1, i, SlotAfter(w, start, xs, resized, k - 1, i),
                     w.t.slots[w.v.sizeSlot.value].value);
    }
  }

  // ------------------------------------------------------------- the setters

  /** The elements between the old end of the vector and the first one given, which
      a setter leaves as they are: zero in the vector, untouched in their slots. */
  ghost predicate GapIsZero(w: World, c: Names, start: nat) {
    forall i | |w.v.value| <= i < start :: ValueAt(w.t.slots, c.hash(c.elem(i))) == 0
  }

  lemma ResizedToKeeps(w: World, c: Names, n: nat)
    requires Valid(w, c)
    ensures var u := ResizedTo(w, c, n);
      && Valid(u, c)
      && u.v.value == Resized(w.v.value, n)
      && u.v.persist == (w.v.persist && ElemsRegistered(w.t, c.hash, c.elem, w.v.elems, n).ok)
      && (u.v.persist ==> u.t.slots[u.v.sizeSlot.value].value == n)
  {
    if w.v.persist { ResizeKeeps(w.(v := w.v.(value := Resized(w.v.value, n))), c, n); }
  }

  lemma ResizedToSlot(w: World, c: Names, n: nat, i: nat)
    requires Valid(w, c) && ResizedTo(w, c, n).v.persist && i < n
    ensures var u := ResizedTo(w, c, n);
      && Valid(u, c)
      && i < |u.v.elems|
      && u.t.slots[u.v.elems[i]].value == ValueAt(w.t.slots, c.hash(c.elem(i)))
  {
    ResizedToKeeps(w, c, n);
    ResizeValue(w.(v := w.v.(value := Resized(w.v.value, n))), c, n, i);
  }

  lemma BaseKeeps(w: World, c: Names, n: nat, exact: bool)
    requires Valid(w, c)
    ensures var b := Base(w, c, n, exact);
      && Valid(b, c)
      && b.v.value == (if Resizes(w, n, exact) then Resized(w.v.value, n) else w.v.value)
      && b.v.persist == (w.v.persist && (Resizes(w, n, exact) ==> ElemsRegistered(w.t, c.hash, c.elem, w.v.elems, n).ok))
      && (b.v.persist && Agrees(w, c) ==> b.t.slots[b.v.sizeSlot.value].value == |b.v.value|)
  {
    if Resizes(w, n, exact) { ResizedToKeeps(w, c, n); }
  }

  lemma BaseSlot(w: World, c: Names, n: nat, exact: bool, i: nat)
    requires Valid(w, c) && Agrees(w, c) && Base(w, c, n, exact).v.persist && i < |Base(w, c, n, exact).v.value|
    ensures var b := Base(w, c, n, exact);
      && Valid(b, c)
      && b.t.slots[b.v.elems[i]].value == if i < |w.v.value| then w.v.value[i] else ValueAt(w.t.slots, c.hash(c.elem(i)))
  {
    BaseKeeps(w, c, n, exact);
    if Resizes(w, n, exact) { ResizedToSlot(w, c, n, i); }
    if i < |w.v.value| { assert BoundTo(w.t, c.hash, c.elem(i), w.v.elems[i]); }
  }

  /** A setter leaves a valid metric holding the elements given, and ends its
      persistence only if a slot is refused. */
  lemma SetIsValid(w: World, c: Names, start: nat, xs: seq<nat>, exact: bool)
    requires Valid(w, c) && (exact ==> start == 0)
    ensures var u := Set(w, c, start, xs, exact);
      var n := start + |xs|;
      var base := if Resizes(w, n, exact) then Resized(w.v.value, n) else w.v.value;
      && Valid(u, c)
      && u.v.value == base[..start] + xs + base[n..]
      && u.v.persist == (w.v.persist && (Resizes(w, n, exact) ==> ElemsRegistered(w.t, c.hash, c.elem, w.v.elems, n).ok))
  {
    var n := start + |xs|;
    BaseKeeps(w, c, n, exact);
    StoredVec(Base(w, c, n, exact), c, start, xs, Resizes(w, n, exact), |xs|);
    assert xs[..|xs|] == xs;
  }

  /** An element and its slot agree. */
  ghost predicate SlotRight(u: World, i: nat)
    requires i < |u.v.value| && i < |u.v.elems| && u.v.elems[i] < |u.t.slots|
  {
    u.t.slots[u.v.elems[i]].value == u.v.value[i]
  }

  /** An element and its slot agree after the loop if it was written, or if they
      agreed before. */
  lemma LoopSlot(b: World, c: Names, start: nat, xs: seq<nat>, resized: bool, i: nat)
    requires Valid(b, c) && b.v.persist && start + |xs| <= |b.v.value| && i < |b.v.value|
    ensures var u := Stored(b, c, start, xs, resized, |xs|);
      && Valid(u, c) && u.v.elems == b.v.elems && |u.v.value| == |b.v.value| && u.v.persist
      && (SlotRight(u, i) <==>
            || (start <= i < start + |xs| && (resized || b.v.value[i] != xs[i - start]))
            || SlotRight(b, i))
  {
    StoredVec(b, c, start, xs, resized, |xs|);
    StoredSlot(b, c, start, xs, resized, |xs|, i);
  }

  lemma BaseRight(w: World, c: Names, n: nat, exact: bool, i: nat)
    requires Valid(w, c) && Agrees(w, c) && Base(w, c, n, exact).v.persist && i < |Base(w, c, n, exact).v.value|
    ensures var b := Base(w, c, n, exact);
      && Valid(b, c)
      && (SlotRight(b, i) <==> i < |w.v.value| || ValueAt(w.t.slots, c.hash(c.elem(i))) == 0)
  {
    BaseKeeps(w, c, n, exact);
    BaseSlot(w, c, n, exact, i);
  }

  /** An element's slot after a setter. */
  lemma SetSlot(w: World, c: Names, start: nat, xs: seq<nat>, exact: bool, i: nat)
    requires Valid(w, c) && Agrees(w, c) && (exact ==> start == 0)
    requires Base(w, c, start + |xs|, exact).v.persist && i < |Base(w, c, start + |xs|, exact).v.value|
    ensures var u := Set(w, c, start, xs, exact);
      && Valid(u, c) && |u.v.value| == |Base(w, c, start + |xs|, exact).v.value|
      && u.v.persist
      && (SlotRight(u, i) <==> (|w.v.value| <= i < start ==> ValueAt(w.t.slots, c.hash(c.elem(i))) == 0))
  {
    assert |Base(w, c, start + |xs|, exact).v.value| >= start + |xs| by { BaseKeeps(w, c, start + |xs|, exact); }
    BaseRight(w, c, start + |xs|, exact, i);
    LoopSlot(Base(w, c, start + |xs|, exact), c, start, xs, Resizes(w, start + |xs|, exact), i);
  }

  /** The size slot after a setter. */
  lemma SetSize(w: World, c: Names, start: nat, xs: seq<nat>, exact: bool)
    requires Valid(w, c) && Agrees(w, c) && (exact ==> start == 0)
    requires Set(w, c, start, xs, exact).v.persist
    ensures var u := Set(w, c, start, xs, exact);
      Valid(u, c) && u.t.slots[u.v.sizeSlot.value].value == |u.v.value|
  {
    var n := start + |xs|;
    var b := Base(w, c, n, exact);
    BaseKeeps(w, c, n, exact);
    StoredVec(b, c, start, xs, Resizes(w, n, exact), |xs|);
    if |b.v.value| > 0 { StoredSlot(b, c, start, xs, Resizes(w, n, exact), |xs|, 0); }
  }

  /** Agreement, slot by slot. */
  lemma AgreesBySlots(u: World, c: Names, w: World, start: nat)
    requires Valid(u, c) && u.v.persist && u.t.slots[u.v.sizeSlot.value].value == |u.v.value|
    requires start <= |u.v.value|
    requires forall i | 0 <= i < |u.v.value| ::
      SlotRight(u, i) <==> (|w.v.value| <= i < start ==> ValueAt(w.t.slots, c.hash(c.elem(i))) == 0)
    ensures Agrees(u, c) <==> GapIsZero(w, c, start)
  {
    if GapIsZero(w, c, start) {
      forall i | 0 <= i < |u.v.value| ensures u.t.slots[u.v.elems[i]].value == u.v.value[i] { assert SlotRight(u, i); }
    }
    if Agrees(u, c) {
      forall i | |w.v.value| <= i < start ensures ValueAt(w.t.slots, c.hash(c.elem(i))) == 0 { assert SlotRight(u, i); }
    }
  }

  /** A setter keeps the metric and its slots in agreement, exactly when whatever
      gap it leaves beyond the old end had zero in its slots: slots kept from a
      longer vector still hold the old elements. */
  lemma SetAgreesIff(w: World, c: Names, start: nat, xs: seq<nat>, exact: bool)
    requires Valid(w, c) && Agrees(w, c) && (exact ==> start == 0)
    ensures Valid(Set(w, c, start, xs, exact), c)
    ensures Agrees(Set(w, c, start, xs, exact), c) <==>
              (Set(w, c, start, xs, exact).v.persist ==> GapIsZero(w, c, start))
  {
    SetIsValid(w, c, start, xs, exact);
    var u := Set(w, c, start, xs, exact);
    if u.v.persist {
      SetSize(w, c, start, xs, exact);
      forall i | 0 <= i < |u.v.value|
        ensures SlotRight(u, i) <==> (|w.v.value| <= i < start ==> ValueAt(w.t.slots, c.hash(c.elem(i))) == 0)
      {
        BaseKeeps(w, c, start + |xs|, exact);
        SetSlot(w, c, start, xs, exact, i);
      }
      AgreesBySlots(u, c, w, start);
    }
  }
}
