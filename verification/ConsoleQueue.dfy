/**
 What a console does with its queue: show messages, or keep the newest ones back
 while a command takes the input.
 */
module ConsoleQueue {
  import opened Common

  /** What handling device input does to the input: nothing, a command takes it, or
      the command gives it back. */
  datatype Effect = Keeps | Takes | GivesBack

  /** A queue entry: device input, or a message and whether it has any text. */
  datatype Event<M> = Recv(effect: Effect) | Message(msg: M, text: bool)

  /** `m_deferred`, `m_insert`, `m_discarded`, the messages shown so far and those
      released so far. */
  datatype View<M> = View(deferred: Option<seq<Event<M>>>, insert: bool, discarded: nat,
                          shown: seq<Event<M>>, gone: seq<Event<M>>)

  /** What does not change: the capacity of a queue, and whether messages are shown. */
  datatype Setup = Setup(cap: nat, monitoring: bool)

  function Kept<M>(v: View<M>): seq<Event<M>> {
    if v.deferred.Some? then v.deferred.value else []
  }

  function Shown<M>(v: View<M>, e: Event<M>, c: Setup): View<M> {
    v.(shown := if c.monitoring && e.Message? && e.text then v.shown + [e] else v.shown, gone := v.gone + [e])
  }

  /** Keeps a message back; a full queue gives up its oldest. */
  function Deferred<M>(v: View<M>, e: Event<M>, c: Setup): View<M> {
    var d := Kept(v);
    if |d| < c.cap || d == [] then v.(deferred := Some(d + [e]))
    else v.(deferred := Some(d[1..] + [e]), discarded := v.discarded + 1, gone := v.gone + [d[0]])
  }

  function AllShown<M>(v: View<M>, q: seq<Event<M>>, c: Setup): View<M>
    decreases |q|
  {
    if q == [] then v else AllShown(Shown(v, q[0], c), q[1..], c)
  }

  /** `finalise`: shows what was kept back. */
  function Finalised<M>(v: View<M>, c: Setup): View<M> {
    if v.deferred.None? then v
    else AllShown(v.(deferred := None, discarded := 0), v.deferred.value, c)
  }

  function Handled<M>(v: View<M>, e: Event<M>, c: Setup): View<M> {
    match e
    case Recv(Keeps) => v
    case Recv(Takes) => v.(insert := true)
    case Recv(GivesBack) => if v.insert then Finalised(v.(insert := false), c) else v
    case Message(_, _) => if v.insert then Deferred(v, e, c) else Shown(v, e, c)
  }

  /** `Poll`, until the queue is empty. */
  function Polled<M>(v: View<M>, q: seq<Event<M>>, c: Setup): View<M>
    decreases |q|
  {
    if q == [] then v else Polled(Handled(v, q[0], c), q[1..], c)
  }

  // ----------------------------------------------------------- conservation

  function Occ<M(==)>(q: seq<Event<M>>, m: M): nat {
    if q == [] then 0 else (if q[0].Message? && q[0].msg == m then 1 else 0) + Occ(q[1..], m)
  }

  lemma {:induction false} OccAppend<M>(q: seq<Event<M>>, r: seq<Event<M>>, m: M)
    ensures Occ(q + r, m) == Occ(q, m) + Occ(r, m)
  {
    if q == [] {
      assert q + r == r;
    } else {
      OccAppend(q[1..], r, m);
      assert (q + r)[1..] == q[1..] + r;
    }
  }

  /** How often a message is with the console or has left it. */
  function Total<M(==)>(v: View<M>, m: M): nat {
    Occ(Kept(v), m) + Occ(v.gone, m)
  }

  lemma {:induction false} AllShownConserves<M>(v: View<M>, q: seq<Event<M>>, c: Setup, m: M)
    ensures Total(AllShown(v, q, c), m) == Total(v, m) + Occ(q, m)
    decreases |q|
  {
    if q != [] {
      OccAppend(v.gone, [q[0]], m);
      AllShownConserves(Shown(v, q[0], c), q[1..], c, m);
    }
  }

  lemma HandleConserves<M>(v: View<M>, e: Event<M>, c: Setup, m: M)
    ensures Total(Handled(v, e, c), m) == Total(v, m) + Occ([e], m)
  {
    var d := Kept(v);
    OccAppend(v.gone, [e], m);
    OccAppend(d, [e], m);
    if d != [] {
      OccAppend(v.gone, [d[0]], m);
      OccAppend(d[1..], [e], m);
    }
    if v.deferred.Some? {
      AllShownConserves(v.(insert := false, deferred := None, discarded := 0), d, c, m);
    }
  }

  /** Every message taken from the queue is kept back, or released exactly once. */
  lemma {:induction false} PollConserves<M>(v: View<M>, q: seq<Event<M>>, c: Setup, m: M)
    ensures Total(Polled(v, q, c), m) == Total(v, m) + Occ(q, m)
    decreases |q|
  {
    if q != [] {
      HandleConserves(v, q[0], c, m);
      PollConserves(Handled(v, q[0], c), q[1..], c, m);
      assert Occ(q, m) == Occ([q[0]], m) + Occ(q[1..], m);
    }
  }

  // ------------------------------------------------------- the newest are kept

  function Newest<T>(q: seq<T>, n: nat): seq<T> {
    if |q| <= n then q else q[|q| - n..]
  }

  /** What is left out of the newest. */
  function Older<T>(q: seq<T>, n: nat): seq<T> {
    if |q| <= n then [] else q[..|q| - n]
  }

  predicate OnlyMessages<M>(q: seq<Event<M>>) {
    forall i | 0 <= i < |q| :: q[i].Message?
  }

  lemma NewestOfMore<T>(a: seq<T>, b: seq<T>, n: nat)
    ensures Newest(Newest(a, n) + b, n) == Newest(a + b, n)
    ensures Older(a, n) + Older(Newest(a, n) + b, n) == Older(a + b, n)
  {
    assert a + b == Older(a, n) + (Newest(a, n) + b);
  }

  /** The newest of `all` are kept, the others released and counted, and nothing is
      shown. */
  ghost predicate KeepsNewest<M>(v: View<M>, u: View<M>, all: seq<Event<M>>, c: Setup) {
    && Kept(u) == Newest(all, c.cap)
    && u.discarded == v.discarded + |Older(all, c.cap)|
    && u.gone == v.gone + Older(all, c.cap)
    && u.shown == v.shown && u.insert == v.insert
  }

  lemma OneIsKept<M>(v: View<M>, e: Event<M>, c: Setup)
    requires c.cap > 0 && |Kept(v)| <= c.cap
    ensures KeepsNewest(v, Deferred(v, e, c), Kept(v) + [e], c)
  {
    if |Kept(v)| == c.cap { assert (Kept(v) + [e])[..1] == [Kept(v)[0]]; }
  }

  lemma KeepsNewestTwice<M>(v: View<M>, w: View<M>, u: View<M>, a: seq<Event<M>>, b: seq<Event<M>>, c: Setup)
    requires KeepsNewest(v, w, a, c) && KeepsNewest(w, u, Kept(w) + b, c)
    ensures KeepsNewest(v, u, a + b, c)
  {
    NewestOfMore(a, b, c.cap);
    assert v.gone + Older(a, c.cap) + Older(Kept(w) + b, c.cap) == v.gone + Older(a + b, c.cap);
  }

  /** While a command has the input, the console keeps exactly the newest messages, as
      many as the queue holds; it releases the others, oldest first, counts them and
      shows nothing. */
  lemma {:induction false} NewestAreKept<M>(v: View<M>, q: seq<Event<M>>, c: Setup)
    requires v.insert && OnlyMessages(q) && c.cap > 0 && |Kept(v)| <= c.cap
    ensures KeepsNewest(v, Polled(v, q, c), Kept(v) + q, c)
    decreases |q|
  {
    if q == [] {
      assert Kept(v) + q == Kept(v);
    } else {
      var w := Deferred(v, q[0], c);
      OneIsKept(v, q[0], c);
      NewestAreKept(w, q[1..], c);
      KeepsNewestTwice(v, w, Polled(v, q, c), Kept(v) + [q[0]], q[1..], c);
      assert Kept(v) + q == Kept(v) + [q[0]] + q[1..];
    }
  }

  // --------------------------------------------------------- order of arrival

  /** One sequence is another with some entries left out. */
  predicate Within<T(==)>(a: seq<T>, b: seq<T>) {
    a == [] || (b != [] && ((a[0] == b[0] && Within(a[1..], b[1..])) || Within(a, b[1..])))
  }

  lemma {:induction false} WithinItself<T>(a: seq<T>)
    ensures Within(a, a)
  {
    if a != [] { WithinItself(a[1..]); }
  }

  lemma {:induction false} WithinMore<T>(a: seq<T>, b: seq<T>, c: seq<T>)
    requires Within(a, b)
    ensures Within(a, b + c) && Within(a + c, b + c)
    decreases |b|
  {
    if a == [] {
      assert a + c == c;
      WithinAfter(c, b);
    } else {
      assert (a + c)[1..] == a[1..] + c && (b + c)[1..] == b[1..] + c;
      if a[0] == b[0] && Within(a[1..], b[1..]) {
        WithinMore(a[1..], b[1..], c);
      } else {
        WithinMore(a, b[1..], c);
      }
    }
  }

  lemma {:induction false} WithinAfter<T>(a: seq<T>, b: seq<T>)
    ensures Within(a, b + a)
  {
    if b == [] {
      assert b + a == a;
      WithinItself(a);
    } else {
      assert (b + a)[1..] == b[1..] + a;
      WithinAfter(a, b[1..]);
    }
  }

  lemma {:induction false} WithinBehind<T>(a: seq<T>, b: seq<T>, c: seq<T>)
    requires Within(b, c)
    ensures Within(a + b, a + c)
  {
    if a == [] {
      assert a + b == b && a + c == c;
    } else {
      assert (a + b)[1..] == a[1..] + b && (a + c)[1..] == a[1..] + c;
      WithinBehind(a[1..], b, c);
    }
  }

  lemma {:induction false} WithinTransitive<T>(a: seq<T>, b: seq<T>, c: seq<T>)
    requires Within(a, b) && Within(b, c)
    ensures Within(a, c)
    decreases |b| + |c|
  {
    if a != [] {
      if b[0] == c[0] && Within(b[1..], c[1..]) {
        if a[0] == b[0] && Within(a[1..], b[1..]) {
          WithinTransitive(a[1..], b[1..], c[1..]);
        } else {
          WithinTransitive(a, b[1..], c[1..]);
        }
      } else {
        WithinTransitive(a, b, c[1..]);
      }
    }
  }

  /** The messages shown so far, and those kept back that will be shown next. */
  function Line<M>(v: View<M>): seq<Event<M>> {
    v.shown + Kept(v)
  }

  /** Messages are kept back only while a command has the input. */
  predicate Valid<M>(v: View<M>) {
    v.deferred.Some? ==> v.insert
  }

  lemma {:induction false} AllShownInOrder<M>(v: View<M>, q: seq<Event<M>>, c: Setup)
    ensures Within(AllShown(v, q, c).shown, v.shown + q)
    decreases |q|
  {
    if q == [] {
      assert v.shown + q == v.shown;
      WithinItself(v.shown);
    } else {
      var w := Shown(v, q[0], c);
      AllShownInOrder(w, q[1..], c);
      assert v.shown + q == v.shown + [q[0]] + q[1..];
      WithinItself(v.shown);
      WithinMore(v.shown, v.shown, [q[0]]);
      WithinMore(w.shown, v.shown + [q[0]], q[1..]);
      WithinTransitive(AllShown(w, q[1..], c).shown, w.shown + q[1..], v.shown + q);
    }
  }

  lemma HandledInOrder<M>(v: View<M>, e: Event<M>, c: Setup)
    requires Valid(v)
    ensures Valid(Handled(v, e, c)) && Within(Line(Handled(v, e, c)), Line(v) + [e])
  {
    var u := Handled(v, e, c);
    WithinItself(Line(v));
    WithinMore(Line(v), Line(v), [e]);
    if e.Message? && v.insert && !(|Kept(v)| < c.cap || Kept(v) == []) {
      var d := Kept(v);
      assert d == [d[0]] + d[1..];
      WithinAfter(d[1..], [d[0]]);
      WithinBehind(v.shown, d[1..], d);
      WithinMore(v.shown + d[1..], v.shown + d, [e]);
      assert Line(u) == v.shown + d[1..] + [e];
    } else if e.Message? && v.insert {
      assert Line(u) == Line(v) + [e];
    } else if e.Message? {
      assert Line(v) == v.shown && Line(u) == u.shown;
    } else if e.effect.GivesBack? && v.insert && v.deferred.Some? {
      var w := v.(insert := false, deferred := None, discarded := 0);
      AllShownConservesFields(w, v.deferred.value, c);
      AllShownInOrder(w, v.deferred.value, c);
      WithinMore(u.shown, Line(v), [e]);
      assert Line(u) == u.shown;
    }
  }

  lemma {:induction false} AllShownConservesFields<M>(v: View<M>, q: seq<Event<M>>, c: Setup)
    ensures var u := AllShown(v, q, c); u.deferred == v.deferred && u.insert == v.insert && u.discarded == v.discarded
    decreases |q|
  {
    if q != [] { AllShownConservesFields(Shown(v, q[0], c), q[1..], c); }
  }

  lemma WithinStep<T>(x: seq<T>, w: seq<T>, v: seq<T>, e: T, rest: seq<T>)
    requires Within(x, w + rest) && Within(w, v + [e])
    ensures Within(x, v + ([e] + rest))
  {
    WithinMore(w, v + [e], rest);
    assert v + [e] + rest == v + ([e] + rest);
    WithinTransitive(x, w + rest, v + ([e] + rest));
  }

  /** Messages are shown in the order in which they arrived: whatever a poll shows and
      keeps, it leaves messages out but never changes their order. */
  lemma {:induction false} ShownInOrder<M>(v: View<M>, q: seq<Event<M>>, c: Setup)
    requires Valid(v)
    ensures Valid(Polled(v, q, c)) && Within(Line(Polled(v, q, c)), Line(v) + q)
    decreases |q|
  {
    if q == [] {
      assert Line(v) + q == Line(v);
      WithinItself(Line(v));
    } else {
      var w := Handled(v, q[0], c);
      HandledInOrder(v, q[0], c);
      ShownInOrder(w, q[1..], c);
      WithinStep(Line(Polled(w, q[1..], c)), Line(w), Line(v), q[0], q[1..]);
      assert [q[0]] + q[1..] == q;
    }
  }
}
