/**
 The change bits of a metric: one bit for each reader, all set by a writer after it
 has stored a value, each cleared by its own reader before it reads.
 */
module ChangeBits {
  /** A reader's number, as handed out by `RegisterModifier`: below 32. */
  type ReaderId = r: nat | r < 32

  const ALL: bv32 := 0xFFFF_FFFF

  function Mask(r: ReaderId): bv32 {
    1 << r
  }

  /** Whether reader `r` has a change to read. */
  predicate Bit(bits: bv32, r: ReaderId) {
    bits & Mask(r) != 0
  }

  /** The readers that have a change to read. */
  ghost function Changed(bits: bv32): set<ReaderId> {
    set r: ReaderId | Bit(bits, r)
  }

  predicate IsReader(r: nat) {
    r < 32
  }

  function AllReaders(): set<ReaderId> {
    set r: ReaderId | IsReader(r)
  }

  // ---------------------------------------------------------------- the bits

  lemma MasksApart(r: ReaderId, k: ReaderId)
    ensures Mask(r) != 0 && (r != k ==> Mask(r) & Mask(k) == 0)
  {
  }

  lemma Cleared(bits: bv32, m: bv32, n: bv32)
    ensures (bits & !m) & m == 0
    ensures m & n == 0 ==> (bits & !m) & n == bits & n
  {
  }

  lemma Added(bits: bv32, m: bv32, n: bv32)
    ensures m != 0 ==> (bits | m) & m != 0
    ensures m & n == 0 ==> (bits | m) & n == bits & n
  {
  }

  lemma SetOwn(bits: bv32, r: ReaderId)
    ensures Bit(bits | Mask(r), r)
  {
    MasksApart(r, r);
    Added(bits, Mask(r), 0);
  }

  lemma SetOther(bits: bv32, r: ReaderId, k: ReaderId)
    requires k != r
    ensures Bit(bits | Mask(r), k) <==> Bit(bits, k)
  {
    MasksApart(r, k);
    Added(bits, Mask(r), Mask(k));
  }

  /** Clearing a reader's bit clears no other. */
  lemma ClearOne(bits: bv32, r: ReaderId, k: ReaderId)
    ensures Bit(bits & !Mask(r), k) <==> Bit(bits, k) && k != r
  {
    MasksApart(r, k);
    Cleared(bits, Mask(r), Mask(k));
  }

  /** Setting a reader's bit sets no other. */
  lemma SetOne(bits: bv32, r: ReaderId, k: ReaderId)
    ensures Bit(bits | Mask(r), k) <==> Bit(bits, k) || k == r
  {
    if k == r { SetOwn(bits, r); } else { SetOther(bits, r, k); }
  }

  lemma AllBits(k: ReaderId)
    ensures Bit(ALL, k)
  {
    MasksApart(k, k);
  }

  // The three ways the word is changed, as changes of the set of readers.

  lemma ClearIsRemove(bits: bv32, r: ReaderId)
    ensures Changed(bits & !Mask(r)) == Changed(bits) - {r}
  {
    var c := bits & !Mask(r);
    forall k: ReaderId ensures Bit(c, k) <==> Bit(bits, k) && k != r { ClearOne(bits, r, k); }
  }

  lemma SetIsAdd(bits: bv32, r: ReaderId)
    ensures Changed(bits | Mask(r)) == Changed(bits) + {r}
  {
    var c := bits | Mask(r);
    forall k: ReaderId ensures Bit(c, k) <==> Bit(bits, k) || k == r { SetOne(bits, r, k); }
  }

  lemma AllIsEverybody()
    ensures Changed(ALL) == AllReaders() && Changed(0) == {}
  {
    forall k: ReaderId ensures Bit(ALL, k) { AllBits(k); }
  }

  /** `bits & bit`. */
  method Test(bits: bv32, r: ReaderId) returns (found: bool)
    ensures found <==> r in Changed(bits)
  {
    found := bits & Mask(r) != 0;
  }

  /** `bits & ~bit`. */
  method Without(bits: bv32, r: ReaderId) returns (rest: bv32)
    ensures Changed(rest) == Changed(bits) - {r}
  {
    ClearIsRemove(bits, r);
    rest := bits & !Mask(r);
  }

  /** `bits | bit`. */
  method With(bits: bv32, r: ReaderId) returns (all: bv32)
    ensures Changed(all) == Changed(bits) + {r}
  {
    SetIsAdd(bits, r);
    all := bits | Mask(r);
  }

  // -------------------------------------------------------------- the metric

  /** An integer metric, as far as changes are concerned. */
  class OvmsMetricInt {
    var value: int
    var defined: bool
    var modified: bv32
    /** `m_sendunit`: readers to be told the unit. */
    var sendUnit: bv32

    constructor ()
      ensures value == 0 && !defined && Changed(modified) == {} && Changed(sendUnit) == {}
    {
      value, defined, modified, sendUnit := 0, false, 0, 0;
      AllIsEverybody();
    }

    method SetModified(changed: bool)
      modifies this`defined, this`modified
      ensures defined
      ensures Changed(modified) == if changed then AllReaders() else old(Changed(modified))
    {
      defined := true;
      if changed {
        modified := ALL;
        AllIsEverybody();
      }
    }

    /** Tells every reader about a value that is new, and none about one that is not. */
    method SetValue(newValue: int) returns (changed: bool)
      modifies this`value, this`defined, this`modified
      ensures value == newValue && defined
      ensures changed <==> newValue != old(value)
      ensures Changed(modified) == if changed then AllReaders() else old(Changed(modified))
    {
      if value != newValue {
        value := newValue;
        SetModified(true);
        return true;
      } else {
        SetModified(false);
        return false;
      }
    }

    method IsModified(r: ReaderId) returns (changed: bool)
      ensures changed <==> r in Changed(modified)
    {
      changed := Test(modified, r);
    }

    /** Tells a reader of a change once, and leaves the other readers' alone. */
    method IsModifiedAndClear(r: ReaderId) returns (changed: bool)
      modifies this`modified
      ensures changed <==> r in old(Changed(modified))
      ensures Changed(modified) == old(Changed(modified)) - {r}
    {
      var mod := modified;
      modified := Without(mod, r);
      changed := Test(mod, r);
    }

    method ClearModified(r: ReaderId)
      modifies this`modified
      ensures Changed(modified) == old(Changed(modified)) - {r}
    {
      modified := Without(modified, r);
    }
  }

  /** `SetAllUnitSend`: a reader is to be told every metric's unit. */
  method SetAllUnitSend(metrics: seq<OvmsMetricInt>, r: ReaderId)
    modifies metrics`sendUnit
    ensures forall m | m in metrics :: Changed(m.sendUnit) == old(Changed(m.sendUnit)) + {r}
  {
    var i := 0;
    while i < |metrics|
      invariant i <= |metrics|
      invariant forall m | m in metrics[..i] :: Changed(m.sendUnit) == old(Changed(m.sendUnit)) + {r}
      invariant forall m | m in metrics && m !in metrics[..i] :: m.sendUnit == old(m.sendUnit)
    {
      var m := metrics[i];
      m.sendUnit := With(m.sendUnit, r);
      assert metrics[..i + 1] == metrics[..i] + [m];
      i := i + 1;
    }
  }

  /** `InitialiseSlot`: a new reader is to be told all units and every metric that has
      a value. */
  method InitialiseSlot(metrics: seq<OvmsMetricInt>, r: ReaderId)
    modifies metrics
    ensures forall m | m in metrics ::
      && m.value == old(m.value) && m.defined == old(m.defined)
      && Changed(m.sendUnit) == old(Changed(m.sendUnit)) + {r}
      && Changed(m.modified) == old(Changed(m.modified)) + if m.defined then {r} else {}
  {
    SetAllUnitSend(metrics, r);
    var i := 0;
    while i < |metrics|
      invariant i <= |metrics|
      invariant forall m | m in metrics[..i] :: Changed(m.modified) == old(Changed(m.modified)) + if m.defined then {r} else {}
      invariant forall m | m in metrics && m !in metrics[..i] :: m.modified == old(m.modified)
      modifies metrics`modified
    {
      var m := metrics[i];
      if m.defined {
        m.modified := With(m.modified, r);
      }
      assert metrics[..i + 1] == metrics[..i] + [m];
      i := i + 1;
    }
  }
}
