/** A vector metric's life that leaves a gap: the vector and its slots part company. */
module VectorGap {
  import opened Common
  import opened ElemNames
  import opened PersistSlots
  import opened VectorMetric
  import opened VectorState
  import opened VectorAgreement

  /** The hashes of the metric's name and its first three elements differ. */
  ghost predicate FourHashes(c: Names) {
    var (h, a, b, d) := (c.hash(c.name), c.hash(c.elem(0)), c.hash(c.elem(1)), c.hash(c.elem(2)));
    h != a && h != b && h != d && a != b && a != d && b != d
  }

  /** The table with the size slot and the slots of the first `|xs|` elements. */
  function Slots(c: Names, n: nat, xs: seq<nat>): seq<Slot> {
    [Slot(c.hash(c.name), n)] + seq(|xs|, i requires 0 <= i < |xs| => Slot(c.hash(c.elem(i)), xs[i]))
  }

  function Keys(c: Names, k: nat): map<int, string> {
    if k == 0 then map[c.hash(c.name) := c.name] else Keys(c, k - 1)[c.hash(c.elem(k - 1)) := c.elem(k - 1)]
  }

  /** A persistent metric with `|xs|` element slots. */
  function Metric(c: Names, value: seq<nat>, n: nat, xs: seq<nat>): World {
    World(Vec(value, true, Some(0), seq(|xs|, i => 1 + i)), Table(Slots(c, n, xs), Keys(c, |xs|)))
  }

  lemma {:induction false} KeysAre(c: Names, k: nat, h: int)
    requires FourHashes(c) && k <= 3
    ensures h in Keys(c, k) <==> h == c.hash(c.name) || exists i: nat :: i < k && h == c.hash(c.elem(i))
    decreases k
  {
    if k > 0 { KeysAre(c, k - 1, h); }
  }

  lemma HashesApart(c: Names, i: nat, j: nat)
    requires FourHashes(c) && i < 3 && j < 3 && i != j
    ensures c.hash(c.elem(i)) != c.hash(c.elem(j)) && c.hash(c.elem(i)) != c.hash(c.name)
  {
  }

  /** The next element is given the next slot. */
  lemma NextRegistered(c: Names, n: nat, xs: seq<nat>)
    requires FourHashes(c) && |xs| < 3
    ensures Registered(Table(Slots(c, n, xs), Keys(c, |xs|)), c.elem(|xs|), c.hash) ==
      (Table(Slots(c, n, xs + [0]), Keys(c, |xs| + 1)), Some(1 + |xs|))
  {
    var k := |xs|;
    var h := c.hash(c.elem(k));
    KeysAre(c, k, h);
    forall i: nat | i < k ensures c.hash(c.elem(i)) != h { HashesApart(c, i, k); }
    var slots := Slots(c, n, xs);
    forall i | 0 <= i < |slots| ensures slots[i].namehash != h {
      if i > 0 { assert slots[i].namehash == c.hash(c.elem(i - 1)); }
    }
    assert Find(slots, h) == |slots|;
    assert Slots(c, n, xs + [0]) == slots + [Slot(h, 0)];
  }

  lemma {:induction false} NextElems(c: Names, n: nat, xs: seq<nat>, k: nat)
    requires FourHashes(c) && |xs| + k <= 3
    ensures ElemsRegistered(Table(Slots(c, n, xs), Keys(c, |xs|)), c.hash, c.elem, seq(|xs|, i => 1 + i), |xs| + k) ==
      Progress(Table(Slots(c, n, xs + seq(k, _ => 0)), Keys(c, |xs| + k)), seq(|xs| + k, i => 1 + i), true)
    decreases k
  {
    if k == 0 {
      assert xs + seq(k, _ => 0) == xs;
    } else {
      NextElems(c, n, xs, k - 1);
      var ys := xs + seq(k - 1, _ => 0);
      NextRegistered(c, n, ys);
      assert ys + [0] == xs + seq(k, _ => 0);
      assert seq(|ys|, i => 1 + i) + [1 + |ys|] == seq(|ys| + 1, i => 1 + i);
    }
  }

  /** `SetPersistSize` of such a metric. */
  lemma ResizedMetric(c: Names, value: seq<nat>, n: nat, xs: seq<nat>, m: nat)
    requires FourHashes(c) && |xs| <= 3 && m <= 3
    ensures PersistResized(Metric(c, value, n, xs), c, m) == Metric(c, value, m, Resized(xs, if m > |xs| then m else |xs|))
  {
    var k := if m > |xs| then m - |xs| else 0;
    var ys := xs + seq(k, _ => 0);
    NextElems(c, n, xs, k);
    assert ys == Resized(xs, if m > |xs| then m else |xs|);
    assert Slots(c, n, ys)[0 := Slot(c.hash(c.name), m)] == Slots(c, m, ys);
  }

  /** Writing an element. */
  lemma ElemStoredMetric(c: Names, value: seq<nat>, n: nat, xs: seq<nat>, i: nat, x: nat)
    requires |value| <= |xs| && i < |value|
    ensures ElemStored(Metric(c, value, n, xs), c, i, x) == Metric(c, value[i := x], n, xs[i := x])
  {
    assert Slots(c, n, xs)[1 + i := Slot(c.hash(c.elem(i)), x)] == Slots(c, n, xs[i := x]);
    assert |xs[i := x]| == |xs|;
  }

  lemma ConstructedMetric(c: Names)
    ensures Constructed(Table([], map[]), c) == Metric(c, [], 0, [])
  {
    var (u, slot) := Registered(Table([], map[]), c.name, c.hash);
    assert slot == Some(0) && u == Table([Slot(c.hash(c.name), 0)], map[c.hash(c.name) := c.name]);
    assert Slots(c, 0, []) == u.slots && Keys(c, 0) == u.keymap;
    assert u.slots[0 := Slot(c.hash(c.name), 0)] == u.slots;
  }

  /** Two elements, then one, then a third: element 1 is left out, and its slot keeps
      what it held. */
  function GapLife(a: nat, x: nat, z: nat): seq<Deed> {
    [SetValue([a, x]), SetValue([a]), SetElemValues(2, [z])]
  }

  lemma FirstTwo(c: Names, a: nat, x: nat)
    requires FourHashes(c)
    ensures Set(Metric(c, [], 0, []), c, 0, [a, x], true) == Metric(c, [a, x], 2, [a, x])
  {
    ResizedMetric(c, Resized([], 2), 0, [], 2);
    assert Resized([], 2) == [0, 0];
    ElemStoredMetric(c, [0, 0], 2, [0, 0], 0, a);
    assert [0, 0][0 := a] == [a, 0];
    ElemStoredMetric(c, [a, 0], 2, [a, 0], 1, x);
    assert [a, 0][1 := x] == [a, x];
    LoopOfTwo(Metric(c, [0, 0], 2, [0, 0]), c, [a, x]);
  }

  lemma LoopOfTwo(w: World, c: Names, xs: seq<nat>)
    requires |xs| == 2
    ensures Stored(w, c, 0, xs, true, 2) == ElemStored(ElemStored(w, c, 0, xs[0]), c, 1, xs[1])
  {
    assert Stored(w, c, 0, xs, true, 1) == ElemStored(Stored(w, c, 0, xs, true, 0), c, 0, xs[0]);
  }

  lemma LoopOfOne(w: World, c: Names, start: nat, x: nat)
    ensures Stored(w, c, start, [x], true, 1) == ElemStored(w, c, start, x)
  {
    assert Stored(w, c, start, [x], true, 0) == w;
  }

  lemma ThenOne(c: Names, a: nat, x: nat)
    requires FourHashes(c)
    ensures Set(Metric(c, [a, x], 2, [a, x]), c, 0, [a], true) == Metric(c, [a], 1, [a, x])
  {
    assert Resized([a, x], 1) == [a] && Resized([a, x], 2) == [a, x];
    ResizedMetric(c, [a], 2, [a, x], 1);
    ElemStoredMetric(c, [a], 1, [a, x], 0, a);
    assert [a][0 := a] == [a] && [a, x][0 := a] == [a, x];
    LoopOfOne(Metric(c, [a], 1, [a, x]), c, 0, a);
  }

  lemma ThenAThird(c: Names, a: nat, x: nat, z: nat)
    requires FourHashes(c)
    ensures Set(Metric(c, [a], 1, [a, x]), c, 2, [z], false) == Metric(c, [a, 0, z], 3, [a, x, z])
  {
    assert Resized([a], 3) == [a, 0, 0] && Resized([a, x], 3) == [a, x, 0];
    ResizedMetric(c, [a, 0, 0], 1, [a, x], 3);
    ElemStoredMetric(c, [a, 0, 0], 3, [a, x, 0], 2, z);
    assert [a, 0, 0][2 := z] == [a, 0, z] && [a, x, 0][2 := z] == [a, x, z];
    LoopOfOne(Metric(c, [a, 0, 0], 3, [a, x, 0]), c, 2, z);
  }

  lemma ThreeDeeds(w: World, c: Names, ds: seq<Deed>)
    requires |ds| == 3
    ensures Life(w, c, ds) == Next(Next(Next(w, c, ds[0]), c, ds[1]), c, ds[2])
  {
    var (r, q) := (ds[1..], ds[2..]);
    assert r[0] == ds[1] && r[1..] == q && q[0] == ds[2] && q[1..] == [];
    var w1 := Next(w, c, ds[0]);
    var w2 := Next(w1, c, ds[1]);
    assert Life(w2, c, q) == Next(w2, c, ds[2]);
    assert Life(w1, c, r) == Life(w2, c, q);
  }

  lemma LifeIsValid(c: Names, a: nat, x: nat, z: nat)
    requires Apart(c.name, c.elem) && FourHashes(c)
    ensures Valid(Metric(c, [a, 0, z], 3, [a, x, z]), c)
  {
    ConstructedMetric(c);
    ConstructedAgrees(Table([], map[]), c);
    FirstTwo(c, a, x);
    ThenOne(c, a, x);
    ThenAThird(c, a, x, z);
    SetIsValid(Metric(c, [], 0, []), c, 0, [a, x], true);
    SetIsValid(Metric(c, [a, x], 2, [a, x]), c, 0, [a], true);
    SetIsValid(Metric(c, [a], 1, [a, x]), c, 2, [z], false);
  }

  lemma SlotsOfThree(c: Names, n: nat, xs: seq<nat>)
    requires |xs| == 3
    ensures var s := Slots(c, n, xs);
      |s| == 4 && s[0].value == n && s[1].value == xs[0] && s[2].value == xs[1] && s[3].value == xs[2]
  {
  }

  lemma GapAgreesIff(c: Names, a: nat, y: nat, x: nat, z: nat)
    requires Valid(Metric(c, [a, y, z], 3, [a, x, z]), c)
    ensures Agrees(Metric(c, [a, y, z], 3, [a, x, z]), c) <==> x == y
  {
    SlotsOfThree(c, 3, [a, x, z]);
    var u := Metric(c, [a, y, z], 3, [a, x, z]);
    assert u.v.elems == [1, 2, 3] && u.t.slots[u.v.elems[1]].value == x && u.v.value[1] == y;
  }

  /** What is rebuilt from the slots. */
  lemma GapIsRebuilt(c: Names, a: nat, x: nat, z: nat)
    requires Valid(Metric(c, [a, 0, z], 3, [a, x, z]), c)
    ensures Constructed(After(Metric(c, [a, 0, z], 3, [a, x, z]).t, Reboot, c.hash), c).v.value == [a, x, z]
  {
    var v := Metric(c, [a, x, z], 3, [a, x, z]);
    assert Valid(v, c);
    GapAgreesIff(c, a, x, x, z);
    StepKeepsInv(v.t, Reboot, c.hash);
    RebuiltSame(v, c, After(v.t, Reboot, c.hash));
  }

  /** From its construction in an empty table the metric comes to be persistent without
      agreeing with its slots, unless the element left out had been zero; and a metric
      built after a reboot brings that element back. */
  lemma GapIsReached(c: Names, a: nat, x: nat, z: nat)
    requires Apart(c.name, c.elem) && FourHashes(c)
    ensures var u := Life(Constructed(Table([], map[]), c), c, GapLife(a, x, z));
      && u.v.persist && u.v.value == [a, 0, z] && Valid(u, c)
      && (Agrees(u, c) <==> x == 0)
      && Constructed(After(u.t, Reboot, c.hash), c).v.value == [a, x, z]
  {
    ConstructedMetric(c);
    FirstTwo(c, a, x);
    ThenOne(c, a, x);
    ThenAThird(c, a, x, z);
    ThreeDeeds(Metric(c, [], 0, []), c, GapLife(a, x, z));
    LifeIsValid(c, a, x, z);
    GapAgreesIff(c, a, 0, x, z);
    GapIsRebuilt(c, a, x, z);
  }
}
