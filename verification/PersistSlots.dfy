/**
 The slot allocator for metrics that survive a reboot: a table of at most 100
 hashed slots in memory that is not cleared, and a map from hashes to names that
 is.
 */
module PersistSlots {
  import opened Common

  const NUM_PERSISTENT_VALUES: nat := 100

  /** `persistent_values`. */
  datatype Slot = Slot(namehash: int, value: nat)

  /** The first slot with this hash, or the number of slots. */
  function Find(slots: seq<Slot>, h: int): (i: nat)
    ensures i <= |slots|
    ensures i < |slots| ==> slots[i].namehash == h
    ensures forall k | 0 <= k < i :: slots[k].namehash != h
  {
    if slots == [] || slots[0].namehash == h then 0 else 1 + Find(slots[1..], h)
  }

  /** What the table holds for a hash; a slot not yet allocated counts as zero. */
  function ValueAt(slots: seq<Slot>, h: int): nat {
    var i := Find(slots, h);
    if i < |slots| then slots[i].value else 0
  }

  ghost predicate DistinctHashes(slots: seq<Slot>) {
    forall i, j | 0 <= i < j < |slots| :: slots[i].namehash != slots[j].namehash
  }

  /** Every name accepted since the last boot has a slot under its hash. */
  ghost predicate KeysHaveSlots(slots: seq<Slot>, keymap: map<int, string>, hash: string -> int) {
    forall h | h in keymap :: hash(keymap[h]) == h && Find(slots, h) < |slots|
  }

  ghost predicate TableInv(slots: seq<Slot>, keymap: map<int, string>, hash: string -> int) {
    && |slots| <= NUM_PERSISTENT_VALUES
    && DistinctHashes(slots)
    && KeysHaveSlots(slots, keymap, hash)
  }

  // ----------------------------------------------------- the table over time

  /** What happens to the table: a registration, a write through a slot pointer,
      a reboot. */
  datatype Op = Register(name: string) | Write(slot: nat, value: nat) | Reboot

  datatype Table = Table(slots: seq<Slot>, keymap: map<int, string>)

  predicate Collides(t: Table, name: string, hash: string -> int) {
    hash(name) in t.keymap && t.keymap[hash(name)] != name
  }

  predicate Full(t: Table, name: string, hash: string -> int) {
    Find(t.slots, hash(name)) == |t.slots| && |t.slots| >= NUM_PERSISTENT_VALUES
  }

  /** `pmetrics_register`: the table afterwards and the slot, if any. */
  function Registered(t: Table, name: string, hash: string -> int): (Table, Option<nat>) {
    var h := hash(name);
    if Collides(t, name, hash) || Full(t, name, hash) then (t, None)
    else
      var i := Find(t.slots, h);
      (Table(if i == |t.slots| then t.slots + [Slot(h, 0)] else t.slots, t.keymap[h := name]), Some(i))
  }

  function After(t: Table, op: Op, hash: string -> int): Table {
    match op
    case Register(name) => Registered(t, name, hash).0
    case Write(i, v) => if i < |t.slots| then t.(slots := t.slots[i := t.slots[i].(value := v)]) else t
    case Reboot => t.(keymap := map[])
  }

  function AfterAll(t: Table, ops: seq<Op>, hash: string -> int): Table
    decreases |ops|
  {
    if ops == [] then t else AfterAll(After(t, ops[0], hash), ops[1..], hash)
  }

  lemma FindUnique(slots: seq<Slot>, i: nat)
    requires i < |slots| && DistinctHashes(slots)
    ensures Find(slots, slots[i].namehash) == i
  {
  }

  lemma {:induction false} FindAppend(slots: seq<Slot>, s: Slot, h: int)
    ensures Find(slots + [s], h) ==
      if Find(slots, h) < |slots| then Find(slots, h) else if s.namehash == h then |slots| else |slots| + 1
  {
    if slots == [] {
      assert slots + [s] == [s];
    } else if slots[0].namehash != h {
      FindAppend(slots[1..], s, h);
      assert (slots + [s])[1..] == slots[1..] + [s];
    }
  }

  lemma {:induction false} FindSame(a: seq<Slot>, b: seq<Slot>, h: int)
    requires |a| == |b| && forall i | 0 <= i < |a| :: a[i].namehash == b[i].namehash
    ensures Find(a, h) == Find(b, h)
  {
    if a != [] { FindSame(a[1..], b[1..], h); }
  }

  lemma RegisterKeepsInv(t: Table, name: string, hash: string -> int)
    requires TableInv(t.slots, t.keymap, hash)
    ensures var (u, slot) := Registered(t, name, hash);
      && TableInv(u.slots, u.keymap, hash)
      && t.slots <= u.slots
      && (slot.Some? ==> slot.value < |u.slots| && u.slots[slot.value].namehash == hash(name)
                         && Find(u.slots, hash(name)) == slot.value)
  {
    var h := hash(name);
    var (u, slot) := Registered(t, name, hash);
    FindAppend(t.slots, Slot(h, 0), h);
    forall k | k in u.keymap ensures hash(u.keymap[k]) == k && Find(u.slots, k) < |u.slots| {
      FindAppend(t.slots, Slot(h, 0), k);
    }
  }

  lemma StepKeepsInv(t: Table, op: Op, hash: string -> int)
    requires TableInv(t.slots, t.keymap, hash)
    ensures TableInv(After(t, op, hash).slots, After(t, op, hash).keymap, hash)
  {
    match op
    case Register(name) => RegisterKeepsInv(t, name, hash);
    case Write(_, _) =>
      var u := After(t, op, hash);
      forall k | k in u.keymap ensures Find(u.slots, k) < |u.slots| { FindSame(t.slots, u.slots, k); }
    case Reboot =>
  }

  /** At most 100 slots are used, with distinct hashes, whatever is registered,
      written and however often the module reboots. */
  lemma {:induction false} TableInvForever(t: Table, ops: seq<Op>, hash: string -> int)
    requires TableInv(t.slots, t.keymap, hash)
    ensures TableInv(AfterAll(t, ops, hash).slots, AfterAll(t, ops, hash).keymap, hash)
    decreases |ops|
  {
    if ops != [] {
      StepKeepsInv(t, ops[0], hash);
      TableInvForever(After(t, ops[0], hash), ops[1..], hash);
    }
  }

  /** A slot keeps its hash for ever. */
  lemma {:induction false} SlotsStay(t: Table, ops: seq<Op>, hash: string -> int, i: nat)
    requires i < |t.slots|
    ensures var u := AfterAll(t, ops, hash);
      i < |u.slots| && u.slots[i].namehash == t.slots[i].namehash
    decreases |ops|
  {
    if ops != [] {
      SlotsStay(After(t, ops[0], hash), ops[1..], hash, i);
    }
  }

  /** A name always gets the same slot, over any number of reboots, and getting it
      again changes no contents. */
  lemma SameNameSameSlot(t: Table, name: string, ops: seq<Op>, hash: string -> int)
    requires TableInv(t.slots, t.keymap, hash)
    ensures var (u, slot) := Registered(t, name, hash);
      var v := AfterAll(u, ops, hash);
      var (w, again) := Registered(v, name, hash);
      slot.Some? && again.Some? ==> again == slot && w.slots == v.slots
  {
    var (u, slot) := Registered(t, name, hash);
    RegisterKeepsInv(t, name, hash);
    var v := AfterAll(u, ops, hash);
    TableInvForever(u, ops, hash);
    if slot.Some? {
      SlotsStay(u, ops, hash, slot.value);
      FindUnique(v.slots, slot.value);
    }
  }

  /** Whatever happens between their registrations, reboots included, two accepted
      names share a slot exactly if their hashes are equal. */
  lemma SlotsShareIff(t: Table, a: string, b: string, ops: seq<Op>, hash: string -> int)
    requires TableInv(t.slots, t.keymap, hash)
    ensures var (u, sa) := Registered(t, a, hash);
      var (w, sb) := Registered(AfterAll(u, ops, hash), b, hash);
      sa.Some? && sb.Some? ==> (sa == sb <==> hash(a) == hash(b))
  {
    var (u, sa) := Registered(t, a, hash);
    RegisterKeepsInv(t, a, hash);
    var v := AfterAll(u, ops, hash);
    TableInvForever(u, ops, hash);
    RegisterKeepsInv(v, b, hash);
    if sa.Some? {
      SlotsStay(u, ops, hash, sa.value);
      FindUnique(v.slots, sa.value);
    }
  }

  /** No reboot among the operations. */
  ghost predicate OneBoot(ops: seq<Op>) {
    Reboot !in ops
  }

  lemma {:induction false} AcceptedStays(t: Table, ops: seq<Op>, hash: string -> int, h: int)
    requires OneBoot(ops) && h in t.keymap
    ensures var u := AfterAll(t, ops, hash); h in u.keymap && u.keymap[h] == t.keymap[h]
    decreases |ops|
  {
    if ops != [] {
      assert ops[0] in ops && forall op | op in ops[1..] :: op in ops;
      AcceptedStays(After(t, ops[0], hash), ops[1..], hash, h);
    }
  }

  /** Within one boot two different names never share a slot: one whose hash is taken
      by the other is refused. */
  lemma DifferentNamesDifferentSlots(t: Table, a: string, b: string, ops: seq<Op>, hash: string -> int)
    requires TableInv(t.slots, t.keymap, hash) && OneBoot(ops) && a != b
    ensures var (u, sa) := Registered(t, a, hash);
      var (w, sb) := Registered(AfterAll(u, ops, hash), b, hash);
      sa.Some? && sb.Some? ==> sa != sb
  {
    var (u, sa) := Registered(t, a, hash);
    SlotsShareIff(t, a, b, ops, hash);
    if sa.Some? { AcceptedStays(u, ops, hash, hash(a)); }
  }

  /** What a name forbids it does not forbid for longer than a boot: once the module
      has rebooted, and unless the name has been registered again, one with the same
      hash is accepted and shares its slot. */
  lemma RebootForgetsNames(t: Table, a: string, b: string, before: seq<Op>, after: seq<Op>, hash: string -> int)
    requires TableInv(t.slots, t.keymap, hash) && hash(a) == hash(b)
    requires Registered(t, a, hash).1.Some?
    requires forall op | op in after && op.Register? && hash(op.name) == hash(b) :: op.name == b
    ensures var (u, sa) := Registered(t, a, hash);
      var v := AfterAll(After(AfterAll(u, before, hash), Reboot, hash), after, hash);
      Registered(v, b, hash) == (v.(keymap := v.keymap[hash(b) := b]), sa)
  {
    var (u, sa) := Registered(t, a, hash);
    RegisterKeepsInv(t, a, hash);
    var m := AfterAll(u, before, hash);
    TableInvForever(u, before, hash);
    SlotsStay(u, before, hash, sa.value);
    var r := After(m, Reboot, hash);
    StepKeepsInv(m, Reboot, hash);
    TableInvForever(r, after, hash);
    SlotsStay(r, after, hash, sa.value);
    FindUnique(AfterAll(r, after, hash).slots, sa.value);
    HashStaysFree(r, after, hash, b);
  }

  /** A hash is taken by nobody but the names registered with it. */
  lemma {:induction false} HashStaysFree(t: Table, ops: seq<Op>, hash: string -> int, b: string)
    requires hash(b) in t.keymap ==> t.keymap[hash(b)] == b
    requires forall op | op in ops && op.Register? && hash(op.name) == hash(b) :: op.name == b
    ensures var u := AfterAll(t, ops, hash); hash(b) in u.keymap ==> u.keymap[hash(b)] == b
    decreases |ops|
  {
    if ops != [] {
      assert ops[0] in ops && forall op | op in ops[1..] :: op in ops;
      HashStaysFree(After(t, ops[0], hash), ops[1..], hash, b);
    }
  }

  // ----------------------------------------------------------- the allocator

  class PMetrics {
    const hash: string -> int
    const values: array<Slot>
    var used: nat
    var keymap: map<int, string>

    ghost predicate Valid()
      reads this, values
    {
      && values.Length == NUM_PERSISTENT_VALUES
      && used <= NUM_PERSISTENT_VALUES
      && TableInv(Slots(), keymap, hash)
    }

    ghost function Slots(): seq<Slot>
      reads this, values
    {
      if used <= values.Length then values[..used] else []
    }

    ghost function Contents(): Table
      reads this, values
    {
      Table(Slots(), keymap)
    }

    constructor (hash: string -> int)
      ensures Valid() && Contents() == Table([], map[]) && fresh(values) && this.hash == hash
    {
      this.hash := hash;
      values := new Slot[NUM_PERSISTENT_VALUES];
      used, keymap := 0, map[];
    }

    /** A restart clears ordinary memory but not the table. */
    method Restart()
      requires Valid()
      modifies this`keymap
      ensures Valid() && Contents() == After(old(Contents()), Reboot, hash)
    {
      keymap := map[];
    }

    method FindHash(h: int) returns (i: nat)
      requires Valid()
      ensures i == Find(Slots(), h)
    {
      i := 0;
      while i < used && values[i].namehash != h
        invariant i <= used
        invariant Find(Slots(), h) == i + Find(Slots()[i..], h)
      {
        assert Slots()[i..][1..] == Slots()[i + 1..];
        assert Slots()[i..][0] == values[i];
        i := i + 1;
      }
      if i < used { assert Slots()[i..][0] == values[i]; }
    }

    method Register(name: string) returns (slot: Option<nat>)
      requires Valid()
      modifies this`used, this`keymap, values
      ensures Valid()
      ensures (Contents(), slot) == Registered(old(Contents()), name, hash)
    {
      RegisterKeepsInv(Contents(), name, hash);
      var namehash := hash(name);
      if namehash in keymap && keymap[namehash] != name {
        return None;
      }
      var i := FindHash(namehash);
      if i >= used {
        if i >= NUM_PERSISTENT_VALUES {
          return None;
        }
        ghost var before := Slots();
        values[i] := Slot(namehash, 0);
        used := used + 1;
        assert Slots() == before + [Slot(namehash, 0)];
      }
      keymap := keymap[namehash := name];
      slot := Some(i);
    }

    /** A write through a pointer to a slot's value. */
    method SetSlot(i: nat, value: nat)
      requires Valid() && i < used
      modifies values
      ensures Valid() && Contents() == After(old(Contents()), Write(i, value), hash)
    {
      StepKeepsInv(Contents(), Write(i, value), hash);
      ghost var before := Slots();
      values[i] := values[i].(value := value);
      assert Slots() == before[i := before[i].(value := value)];
    }
  }

  /** A registration is refused exactly if another name with the hash has been accepted
      since the boot, or if all 100 slots are in use by other hashes; and then nothing
      changes. */
  lemma RefusedIff(t: Table, name: string, hash: string -> int)
    ensures var (u, slot) := Registered(t, name, hash);
      && (slot.None? <==>
            || (hash(name) in t.keymap && t.keymap[hash(name)] != name)
            || (|t.slots| >= 100 && forall k | 0 <= k < |t.slots| :: t.slots[k].namehash != hash(name)))
      && (slot.None? ==> u == t)
  {
    var i := Find(t.slots, hash(name));
    assert i < |t.slots| ==> t.slots[i].namehash == hash(name);
  }

  /** What an accepted name gets: the first slot with its hash as it is, or else the next
      slot, with value 0; and the name is remembered. */
  lemma AcceptedGets(t: Table, name: string, hash: string -> int)
    requires Registered(t, name, hash).1.Some?
    ensures var (u, slot) := Registered(t, name, hash); var i := slot.value;
      && u.keymap == t.keymap[hash(name) := name]
      && (forall k | 0 <= k < i :: u.slots[k].namehash != hash(name))
      && (if exists k :: 0 <= k < |t.slots| && t.slots[k].namehash == hash(name)
          then i < |t.slots| && u.slots == t.slots && t.slots[i].namehash == hash(name)
          else i == |t.slots| && u.slots == t.slots + [Slot(hash(name), 0)])
  {
    var j := Find(t.slots, hash(name));
    if k :| 0 <= k < |t.slots| && t.slots[k].namehash == hash(name) { assert j <= k; }
  }
}
