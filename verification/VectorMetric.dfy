/**
 Persistent vector metrics: a vector mirrored into table slots, one for its size
 and one for each element.
 */
module VectorMetric {
  import opened Common
  import opened ElemNames
  import opened PersistSlots

  // ------------------------------------------------------------ pigeonhole

  predicate Distinct(xs: seq<nat>) {
    forall i, j | 0 <= i < j < |xs| :: xs[i] != xs[j]
  }

  lemma {:induction false} Pigeonhole(xs: seq<nat>, n: nat)
    requires Distinct(xs) && forall i | 0 <= i < |xs| :: xs[i] < n
    ensures |xs| <= n
    decreases n
  {
    if xs != [] {
      if n - 1 in xs {
        var k :| 0 <= k < |xs| && xs[k] == n - 1;
        var ys := xs[..k] + xs[k + 1..];
        forall i, j | 0 <= i < j < |ys| ensures ys[i] != ys[j] {
          assert ys[i] == xs[if i < k then i else i + 1] && ys[j] == xs[if j < k then j else j + 1];
        }
        forall i | 0 <= i < |ys| ensures ys[i] < n - 1 {
          assert ys[i] == xs[if i < k then i else i + 1];
        }
        Pigeonhole(ys, n - 1);
      } else {
        Pigeonhole(xs, n - 1);
      }
    }
  }

  // ------------------------------------------------------------- bindings

  /** A name accepted in this boot, with its slot. */
  ghost predicate BoundTo(t: Table, hash: string -> int, name: string, slot: nat) {
    && hash(name) in t.keymap && t.keymap[hash(name)] == name
    && slot < |t.slots| && slot == Find(t.slots, hash(name))
  }

  ghost predicate ElemsBound(t: Table, hash: string -> int, elem: nat -> string, elems: seq<nat>) {
    forall i | 0 <= i < |elems| :: BoundTo(t, hash, elem(i), elems[i])
  }

  lemma BoundApart(t: Table, hash: string -> int, a: string, b: string, i: nat, j: nat)
    requires BoundTo(t, hash, a, i) && BoundTo(t, hash, b, j) && a != b
    ensures i != j
  {
  }

  /** The slots of a metric are pairwise distinct, and there are at most 100. */
  lemma SlotsApart(t: Table, hash: string -> int, name: string, elem: nat -> string, size: nat, elems: seq<nat>)
    requires Apart(name, elem) && |t.slots| <= NUM_PERSISTENT_VALUES
    requires BoundTo(t, hash, name, size) && ElemsBound(t, hash, elem, elems)
    ensures |elems| < NUM_PERSISTENT_VALUES && Distinct([size] + elems)
  {
    var few := if |elems| <= 100 then elems else elems[..100];
    var all := [size] + few;
    forall i, j | 0 <= i < j < |all| ensures all[i] != all[j] {
      var a := if i == 0 then name else elem(i - 1);
      BoundApart(t, hash, a, elem(j - 1), all[i], all[j]);
    }
    Pigeonhole(all, |t.slots|);
    assert few == elems;
  }

  /** Registering a name keeps every binding. */
  lemma RegisterKeepsBinding(t: Table, hash: string -> int, name: string, other: string, slot: nat)
    requires TableInv(t.slots, t.keymap, hash) && BoundTo(t, hash, other, slot)
    ensures BoundTo(Registered(t, name, hash).0, hash, other, slot)
  {
    FindAppend(t.slots, Slot(hash(name), 0), hash(other));
  }

  lemma WriteKeepsBinding(t: Table, hash: string -> int, i: nat, v: nat, other: string, slot: nat)
    requires i < |t.slots| && BoundTo(t, hash, other, slot)
    ensures BoundTo(After(t, Write(i, v), hash), hash, other, slot)
  {
    FindSame(t.slots, After(t, Write(i, v), hash).slots, hash(other));
  }

  lemma AllWriteKeepsBindings(t: Table, hash: string -> int, i: nat, v: nat, elem: nat -> string, elems: seq<nat>)
    requires i < |t.slots| && ElemsBound(t, hash, elem, elems)
    ensures ElemsBound(After(t, Write(i, v), hash), hash, elem, elems)
  {
    forall k | 0 <= k < |elems| ensures BoundTo(After(t, Write(i, v), hash), hash, elem(k), elems[k]) {
      WriteKeepsBinding(t, hash, i, v, elem(k), elems[k]);
    }
  }

  // ---------------------------------------------------- registering elements

  /** Where the registrations of `SetPersistSize` stand: the table, the element
      slots, and whether none was refused. */
  datatype Progress = Progress(t: Table, elems: seq<nat>, ok: bool)

  function RegisterElem(p: Progress, hash: string -> int, name: string): Progress {
    if !p.ok then p
    else
      var (u, slot) := Registered(p.t, name, hash);
      if slot.None? then Progress(u, p.elems, false) else Progress(u, p.elems + [slot.value], true)
  }

  /** The registrations for the elements that have no slot yet, up to size `n`. */
  function ElemsRegistered(t: Table, hash: string -> int, elem: nat -> string, elems: seq<nat>, n: nat): Progress {
    if n <= |elems| then Progress(t, elems, true)
    else RegisterElem(ElemsRegistered(t, hash, elem, elems, n - 1), hash, elem(n - 1))
  }

  /** A refusal is final. */
  lemma {:induction false} RefusalStays(t: Table, hash: string -> int, elem: nat -> string, elems: seq<nat>, m: nat, n: nat)
    requires m <= n && !ElemsRegistered(t, hash, elem, elems, m).ok
    ensures ElemsRegistered(t, hash, elem, elems, n) == ElemsRegistered(t, hash, elem, elems, m)
  {
    if m < n { RefusalStays(t, hash, elem, elems, m, n - 1); }
  }

  /** A registration changes no contents and keeps every binding. */
  lemma RegisterKeeps(t: Table, hash: string -> int, name: string, other: string)
    requires TableInv(t.slots, t.keymap, hash)
    ensures var (u, slot) := Registered(t, name, hash);
      && TableInv(u.slots, u.keymap, hash)
      && t.slots <= u.slots
      && ValueAt(u.slots, hash(other)) == ValueAt(t.slots, hash(other))
      && (slot.Some? ==> BoundTo(u, hash, name, slot.value))
  {
    RegisterKeepsInv(t, name, hash);
    FindAppend(t.slots, Slot(hash(name), 0), hash(other));
  }

  lemma RegisterElemBinds(p: Progress, hash: string -> int, elem: nat -> string)
    requires TableInv(p.t.slots, p.t.keymap, hash) && ElemsBound(p.t, hash, elem, p.elems)
    ensures var q := RegisterElem(p, hash, elem(|p.elems|));
      && TableInv(q.t.slots, q.t.keymap, hash)
      && p.t.slots <= q.t.slots
      && ElemsBound(q.t, hash, elem, q.elems)
  {
    var q := RegisterElem(p, hash, elem(|p.elems|));
    RegisterKeeps(p.t, hash, elem(|p.elems|), "");
    forall k | 0 <= k < |p.elems| ensures BoundTo(q.t, hash, elem(k), p.elems[k]) {
      RegisterKeepsBinding(p.t, hash, elem(|p.elems|), elem(k), p.elems[k]);
    }
  }

  /** Registering elements keeps every slot and binding, and unless one is refused
      each element ends up with a slot under its own name. */
  lemma {:induction false} ElemsRegisteredBinds(t: Table, hash: string -> int, elem: nat -> string, elems: seq<nat>, n: nat)
    requires TableInv(t.slots, t.keymap, hash) && ElemsBound(t, hash, elem, elems)
    ensures var p := ElemsRegistered(t, hash, elem, elems, n);
      && TableInv(p.t.slots, p.t.keymap, hash)
      && t.slots <= p.t.slots
      && ElemsBound(p.t, hash, elem, p.elems)
      && elems <= p.elems
      && (p.ok ==> |p.elems| == if n <= |elems| then |elems| else n)
  {
    if |elems| < n {
      ElemsRegisteredBinds(t, hash, elem, elems, n - 1);
      if ElemsRegistered(t, hash, elem, elems, n - 1).ok {
        RegisterElemBinds(ElemsRegistered(t, hash, elem, elems, n - 1), hash, elem);
      }
    }
  }

  /** What a name stands for is kept: its contents and its binding. */
  ghost predicate Kept(t: Table, u: Table, hash: string -> int, name: string) {
    && TableInv(u.slots, u.keymap, hash)
    && ValueAt(u.slots, hash(name)) == ValueAt(t.slots, hash(name))
    && forall slot: nat | BoundTo(t, hash, name, slot) :: BoundTo(u, hash, name, slot)
  }

  lemma RegisterElemKeeps(p: Progress, hash: string -> int, name: string, other: string)
    requires TableInv(p.t.slots, p.t.keymap, hash)
    ensures Kept(p.t, RegisterElem(p, hash, name).t, hash, other)
  {
    if p.ok {
      RegisterKeeps(p.t, hash, name, other);
      forall slot: nat | BoundTo(p.t, hash, other, slot) ensures BoundTo(RegisterElem(p, hash, name).t, hash, other, slot) {
        RegisterKeepsBinding(p.t, hash, name, other, slot);
      }
    }
  }

  /** Registering elements changes no contents and keeps every other binding. */
  lemma {:induction false} ElemsRegisteredKeeps(t: Table, hash: string -> int, elem: nat -> string, elems: seq<nat>, n: nat,
                                                name: string)
    requires TableInv(t.slots, t.keymap, hash)
    ensures Kept(t, ElemsRegistered(t, hash, elem, elems, n).t, hash, name)
  {
    if |elems| < n {
      ElemsRegisteredKeeps(t, hash, elem, elems, n - 1, name);
      RegisterElemKeeps(ElemsRegistered(t, hash, elem, elems, n - 1), hash, elem(n - 1), name);
    }
  }

  /** Whether the first `n` elements are found in a table, by the hashes of their
      names alone, under these slots. */
  ghost predicate ElemsInTable(t: Table, hash: string -> int, elem: nat -> string, elems: seq<nat>, n: nat) {
    && n <= |elems|
    && forall k | 0 <= k < n :: elems[k] < |t.slots| && t.slots[elems[k]].namehash == hash(elem(k))
  }

  /** The state after finding the first `n` elements again. */
  ghost predicate Found(p: Progress, t: Table, hash: string -> int, elems: seq<nat>, n: nat)
    requires n <= |elems|
  {
    && TableInv(p.t.slots, p.t.keymap, hash)
    && p.t.slots == t.slots && p.ok && p.elems == elems[..n]
    && (forall h | h in t.keymap :: h in p.t.keymap && p.t.keymap[h] == t.keymap[h])
    && forall h | h in p.t.keymap && h !in t.keymap :: exists k: nat :: k < n && elems[k] < |t.slots| && t.slots[elems[k]].namehash == h
  }

  lemma FoundAgain(p: Progress, t: Table, hash: string -> int, name: string, elems: seq<nat>, n: nat)
    requires n < |elems| && Found(p, t, hash, elems, n)
    requires elems[n] < |t.slots| && t.slots[elems[n]].namehash == hash(name) && !Collides(t, name, hash)
    requires forall k: nat | k < n :: elems[k] != elems[n]
    ensures Found(RegisterElem(p, hash, name), t, hash, elems, n + 1)
  {
    RegisterKeepsInv(p.t, name, hash);
    FindUnique(t.slots, elems[n]);
    assert hash(name) in t.keymap || hash(name) !in p.t.keymap;
    assert elems[..n + 1] == elems[..n] + [elems[n]];
    var q := RegisterElem(p, hash, name);
    forall h | h in q.t.keymap && h !in t.keymap
      ensures exists k: nat :: k < n + 1 && elems[k] < |t.slots| && t.slots[elems[k]].namehash == h
    {
      if h == hash(name) { assert t.slots[elems[n]].namehash == h; }
    }
  }

  /** Elements already in the table are all found again, without a change to its
      slots. */
  lemma {:induction false} StoredAreFound(t: Table, hash: string -> int, elem: nat -> string, elems: seq<nat>, n: nat)
    requires TableInv(t.slots, t.keymap, hash) && ElemsInTable(t, hash, elem, elems, n)
    requires forall j, k | 0 <= j < k < n :: elems[j] != elems[k]
    requires forall k: nat | k < n :: !Collides(t, elem(k), hash)
    ensures Found(ElemsRegistered(t, hash, elem, [], n), t, hash, elems, n)
  {
    if n > 0 {
      StoredAreFound(t, hash, elem, elems, n - 1);
      FoundAgain(ElemsRegistered(t, hash, elem, [], n - 1), t, hash, elem(n - 1), elems, n - 1);
    }
  }
}
