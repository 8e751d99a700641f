/**
 The registry of metrics: a linked list kept in the order of the names.
 */
module MetricRegistry {
  import opened Common
  import opened UniquePrefix

  class OvmsMetric {
    const name: string
    var next: OvmsMetric?

    constructor (name: string)
      ensures this.name == name && next == null
    {
      this.name, next := name, null;
    }
  }

  function Names(list: seq<OvmsMetric>): (names: seq<string>)
    ensures |names| == |list| && forall i | 0 <= i < |list| :: names[i] == list[i].name
  {
    seq(|list|, i requires 0 <= i < |list| => list[i].name)
  }

  /** Where a name goes: before the first one that is not smaller. */
  function Place(names: seq<string>, name: string): (k: nat)
    ensures k <= |names|
    ensures forall i | 0 <= i < k :: !Leq(name, names[i])
    ensures k < |names| ==> Leq(name, names[k])
  {
    if names == [] || Leq(name, names[0]) then 0 else 1 + Place(names[1..], name)
  }

  function Inserted<T>(list: seq<T>, k: nat, x: T): seq<T>
    requires k <= |list|
  {
    list[..k] + [x] + list[k..]
  }

  /** A name put in its place keeps the list sorted. */
  lemma InsertKeepsSorted(names: seq<string>, name: string)
    requires Sorted(names)
    ensures Sorted(Inserted(names, Place(names, name), name))
  {
    var k := Place(names, name);
    var longer := Inserted(names, k, name);
    forall i, j | 0 <= i < j < |longer| ensures Leq(longer[i], longer[j]) {
      if i < k {
        LeqTotal(name, names[i]);
        if k < j { assert longer[j] == names[j - 1]; }
      } else if i == k {
        assert longer[j] == names[j - 1];
        if j - 1 > k { LeqTransitive(name, names[k], names[j - 1]); }
      } else {
        assert longer[i] == names[i - 1] && longer[j] == names[j - 1];
      }
    }
  }

  lemma NamesInserted(list: seq<OvmsMetric>, k: nat, m: OvmsMetric)
    requires k <= |list|
    ensures Names(Inserted(list, k, m)) == Inserted(Names(list), k, m.name)
  {
  }

  /** Removing a name keeps the list sorted. */
  lemma RemoveKeepsSorted(names: seq<string>, k: nat)
    requires Sorted(names) && k < |names|
    ensures Sorted(names[..k] + names[k + 1..])
  {
    var shorter := names[..k] + names[k + 1..];
    forall i, j | 0 <= i < j < |shorter| ensures Leq(shorter[i], shorter[j]) {
      assert shorter[i] == names[if i < k then i else i + 1] && shorter[j] == names[if j < k then j else j + 1];
    }
  }

  lemma NamesRemoved(list: seq<OvmsMetric>, k: nat)
    requires k < |list|
    ensures Names(list[..k] + list[k + 1..]) == Names(list)[..k] + Names(list)[k + 1..]
  {
  }

  /** The entry at `i`, or none past the end. */
  function At(list: seq<OvmsMetric>, i: nat): OvmsMetric? {
    if i < |list| then list[i] else null
  }

  function Entry(list: seq<OvmsMetric>, answer: Option<nat>): OvmsMetric? {
    if answer.Some? then At(list, answer.value) else null
  }

  /** Each entry links to the one after it. */
  ghost predicate Chained(list: seq<OvmsMetric>)
    reads list
  {
    forall i: nat | i < |list| :: list[i].next == At(list, i + 1)
  }

  ghost predicate Distinct(list: seq<OvmsMetric>) {
    forall i, j | 0 <= i < j < |list| :: list[i] != list[j]
  }

  class OvmsMetrics {
    var first: OvmsMetric?
    ghost var list: seq<OvmsMetric>

    /** The chain of links from `first` runs through exactly the metrics of `list`,
        once each, and ends. */
    ghost predicate Linked()
      reads this, list
    {
      first == At(list, 0) && Chained(list) && Distinct(list)
    }

    ghost predicate Valid()
      reads this, list
    {
      Linked() && Sorted(Names(list))
    }

    constructor ()
      ensures Valid() && list == []
    {
      first, list := null, [];
    }

    /** Links a metric in its place. */
    method RegisterMetric(metric: OvmsMetric)
      requires Valid() && metric !in list && metric.next == null
      modifies this, list, metric
      ensures Valid()
      ensures list == Inserted(old(list), Place(Names(old(list)), metric.name), metric)
    {
      InsertKeepsSorted(Names(list), metric.name);
      NamesInserted(list, Place(Names(list), metric.name), metric);
      if first == null {
        first, list := metric, Inserted(list, 0, metric);
        return;
      }
      if Leq(metric.name, first.name) {
        metric.next := first;
        first, list := metric, Inserted(list, 0, metric);
        return;
      }
      ghost var k := Place(Names(list), metric.name);
      var m := Predecessor(metric.name);
      InsertAfter(m, metric, k - 1);
    }

    /** The last metric whose name is smaller. */
    method Predecessor(name: string) returns (m: OvmsMetric)
      requires Valid() && list != [] && !Leq(name, list[0].name)
      ensures var k := Place(Names(list), name); k > 0 && m == list[k - 1]
    {
      m := first;
      ghost var i := 0;
      while true
        invariant 0 <= i < |list| && m == list[i]
        invariant forall j | 0 <= j <= i :: !Leq(name, Names(list)[j])
        decreases |list| - i
      {
        if m.next == null {
          return;
        }
        if Leq(name, m.next.name) {
          return;
        }
        m, i := m.next, i + 1;
      }
    }

    method InsertAfter(m: OvmsMetric, metric: OvmsMetric, ghost i: nat)
      requires Linked() && i < |list| && m == list[i]
      requires metric !in list && metric.next == null
      modifies this, list, metric
      ensures Linked() && list == Inserted(old(list), i + 1, metric)
    {
      metric.next := m.next;
      m.next := metric;
      ghost var was := list;
      list := Inserted(list, i + 1, metric);
      forall j: nat | j < |list| ensures list[j].next == At(list, j + 1) {
        assert list[j] == if j <= i then was[j] else if j == i + 1 then metric else was[j - 1];
        assert At(list, j + 1) == if j < i then At(was, j + 1) else if j == i then metric else At(was, j);
      }
    }

    /** Unlinks a metric. */
    method DeregisterMetric(metric: OvmsMetric)
      requires Valid()
      modifies this, list
      ensures Valid()
      ensures metric !in old(list) ==> list == old(list)
      ensures forall k: nat | k < |old(list)| && old(list)[k] == metric :: list == old(list)[..k] + old(list)[k + 1..]
    {
      if first == metric {
        RemoveKeepsSorted(Names(list), 0);
        NamesRemoved(list, 0);
        first, list := metric.next, list[..0] + list[1..];
        return;
      }
      var m, i := first, 0;
      while m != null
        invariant i <= |list| && m == At(list, i)
        invariant Valid() && list == old(list)
        invariant forall j: nat | j <= i && j < |list| :: list[j] != metric
        decreases |list| - i
      {
        if m.next == metric {
          RemoveKeepsSorted(Names(list), i + 1);
          NamesRemoved(list, i + 1);
          UnlinkAfter(m, metric, i);
          return;
        }
        m, i := m.next, i + 1;
      }
    }

    method UnlinkAfter(m: OvmsMetric, metric: OvmsMetric, ghost i: nat)
      requires Linked() && i + 1 < |list| && m == list[i] && metric == list[i + 1]
      modifies this`list, m
      ensures Linked() && list == old(list)[..i + 1] + old(list)[i + 2..]
    {
      m.next := metric.next;
      ghost var was := list;
      list := list[..i + 1] + list[i + 2..];
      forall j: nat | j < |list| ensures list[j].next == At(list, j + 1) {
        assert list[j] == if j <= i then was[j] else was[j + 1];
        assert At(list, j + 1) == if j < i then At(was, j + 1) else At(was, j + 2);
      }
    }

    /** `Find`: the first metric of that name. */
    method Find(name: string) returns (m: OvmsMetric?)
      requires Valid()
      ensures m == null ==> name !in Names(list)
      ensures m != null ==> exists e: nat :: FirstExact(Names(list), name, e) && list[e] == m
    {
      m := first;
      ghost var i := 0;
      while m != null
        invariant i <= |list| && m == At(list, i)
        invariant forall j | 0 <= j < i :: Names(list)[j] != name
        decreases |list| - i
      {
        if m.name == name {
          assert FirstExact(Names(list), name, i);
          return;
        }
        m, i := m.next, i + 1;
      }
    }

    /** `FindUniquePrefix`: the metric of that name if there is one, else the only one
        with that prefix, else none. */
    method FindUniquePrefix(token: string) returns (found: OvmsMetric?)
      requires Valid()
      ensures IsAnswer(Names(list), token, Lookup(Names(list), token))
      ensures found == Entry(list, Lookup(Names(list), token))
    {
      SortedLookup(Names(list), token);
      found := null;
      var m := first;
      ghost var i: nat, answer: Option<nat> := 0, None;
      while m != null
        invariant i <= |list| && m == At(list, i)
        invariant Lookup(Names(list), token) == Scan(Names(list), token, i, answer)
        invariant found == Entry(list, answer) && (answer.Some? ==> answer.value < |list|)
        decreases |list| - i
      {
        assert Names(list)[i] == m.name;
        if token <= m.name {
          if |token| == |m.name| {
            assert token == m.name;
            return m;
          }
          if found != null {
            return null;
          }
          found, answer := m, Some(i);
        }
        m, i := m.next, i + 1;
      }
    }
  }
}
