/**
 What a console shows, releases and keeps back for every queue: between two takings
 of the input exactly the messages with text, and after it is given back exactly the
 newest of those that arrived meanwhile.
 */
module ConsoleShows {
  import opened Common
  import opened ConsoleQueue

  function WithText<M>(q: seq<Event<M>>): seq<Event<M>> {
    if q == [] then []
    else if q[0].Message? && q[0].text then [q[0]] + WithText(q[1..])
    else WithText(q[1..])
  }

  /** What a console shows of these. */
  function Visible<M>(q: seq<Event<M>>, c: Setup): seq<Event<M>> {
    if c.monitoring then WithText(q) else []
  }

  /** An entry is visible exactly if the console monitors and the entry has text. */
  lemma {:induction false} VisibleIff<M>(q: seq<Event<M>>, c: Setup, e: Event<M>)
    ensures e in Visible(q, c) <==> c.monitoring && e in q && e.Message? && e.text
  {
    if q != [] {
      assert q == [q[0]] + q[1..];
      VisibleIff(q[1..], c, e);
    }
  }

  lemma {:induction false} VisibleJoin<M>(a: seq<Event<M>>, b: seq<Event<M>>, c: Setup)
    ensures Visible(a + b, c) == Visible(a, c) + Visible(b, c)
  {
    if a == [] {
      assert a + b == b;
    } else {
      VisibleJoin(a[1..], b, c);
      assert (a + b)[0] == a[0] && (a + b)[1..] == a[1..] + b;
    }
  }

  /** Polling one queue after the other. */
  lemma {:induction false} PolledJoin<M>(v: View<M>, a: seq<Event<M>>, b: seq<Event<M>>, c: Setup)
    ensures Polled(v, a + b, c) == Polled(Polled(v, a, c), b, c)
    decreases |a|
  {
    if a == [] {
      assert a + b == b;
    } else {
      assert (a + b)[0] == a[0] && (a + b)[1..] == a[1..] + b;
      PolledJoin(Handled(v, a[0], c), a[1..], b, c);
    }
  }

  lemma PolledOne<M>(v: View<M>, e: Event<M>, c: Setup)
    ensures Polled(v, [e], c) == Handled(v, e, c)
  {
    assert [e][1..] == [];
  }

  /** The console after it has shown and released these. */
  function Done<M>(v: View<M>, q: seq<Event<M>>, c: Setup): View<M> {
    v.(shown := v.shown + Visible(q, c), gone := v.gone + q)
  }

  lemma ShownIsDone<M>(v: View<M>, e: Event<M>, c: Setup)
    requires e.Message?
    ensures Shown(v, e, c) == Done(v, [e], c)
  {
    assert [e][1..] == [] && WithText<M>([]) == [];
  }

  lemma DoneTwice<M>(v: View<M>, a: seq<Event<M>>, b: seq<Event<M>>, c: Setup)
    ensures Done(Done(v, a, c), b, c) == Done(v, a + b, c)
  {
    VisibleJoin(a, b, c);
    assert v.gone + a + b == v.gone + (a + b);
    assert v.shown + Visible(a, c) + Visible(b, c) == v.shown + (Visible(a, c) + Visible(b, c));
  }

  lemma {:induction false} AllShownAre<M>(v: View<M>, q: seq<Event<M>>, c: Setup)
    requires OnlyMessages(q)
    ensures AllShown(v, q, c) == Done(v, q, c)
    decreases |q|
  {
    if q != [] {
      ShownIsDone(v, q[0], c);
      AllShownAre(Shown(v, q[0], c), q[1..], c);
      DoneTwice(v, [q[0]], q[1..], c);
      assert [q[0]] + q[1..] == q;
    }
  }

  /** With the input free a poll shows every message that has text, releases all of
      them, and changes nothing else. */
  lemma {:induction false} FreePollShows<M>(v: View<M>, q: seq<Event<M>>, c: Setup)
    requires !v.insert && OnlyMessages(q)
    ensures Polled(v, q, c) == v.(shown := v.shown + Visible(q, c), gone := v.gone + q)
    decreases |q|
  {
    if q != [] {
      ShownIsDone(v, q[0], c);
      FreePollShows(Handled(v, q[0], c), q[1..], c);
      DoneTwice(v, [q[0]], q[1..], c);
      assert [q[0]] + q[1..] == q;
    }
  }

  /** A flush shows what was kept back, releases it, and leaves nothing kept or counted. */
  lemma FlushShows<M>(v: View<M>, c: Setup)
    requires OnlyMessages(Kept(v))
    ensures Finalised(v, c) ==
      if v.deferred.None? then v
      else View(None, v.insert, 0, v.shown + Visible(v.deferred.value, c), v.gone + v.deferred.value)
  {
    if v.deferred.Some? { AllShownAre(v.(deferred := None, discarded := 0), v.deferred.value, c); }
  }

  /** What device input does: a command takes the input; giving it back frees it and
      shows what was kept; without a command, or otherwise, nothing happens. */
  lemma InputIs<M>(v: View<M>, effect: Effect, c: Setup)
    requires OnlyMessages(Kept(v))
    ensures var u := Polled(v, [Recv(effect)], c);
      && (effect == Takes ==> u == v.(insert := true))
      && (effect == Keeps || (effect == GivesBack && !v.insert) ==> u == v)
      && (effect == GivesBack && v.insert ==>
            if v.deferred.None? then u == v.(insert := false)
            else u == View(None, false, 0, v.shown + Visible(v.deferred.value, c), v.gone + v.deferred.value))
  {
    PolledOne(v, Recv(effect), c);
    FlushShows(v.(insert := false), c);
  }

  /** What a flush shows when the older messages have been released before. */
  lemma RestShown<M>(u: View<M>, gone: seq<Event<M>>, older: seq<Event<M>>, c: Setup)
    requires u.insert && u.deferred.Some? && u.gone == gone + older && OnlyMessages(u.deferred.value)
    ensures Polled(u, [Recv(GivesBack)], c) ==
      View(None, false, 0, u.shown + Visible(u.deferred.value, c), gone + (older + u.deferred.value))
  {
    InputIs(u, GivesBack, c);
    Regroup(gone, older, u.deferred.value);
  }

  lemma Regroup<T>(a: seq<T>, b: seq<T>, c: seq<T>)
    ensures (a + b) + c == a + (b + c)
  {
  }

  /** Only messages create the deferred queue. */
  lemma {:induction false} NothingDeferred<M>(v: View<M>, q: seq<Event<M>>, c: Setup)
    requires v.insert && OnlyMessages(q)
    ensures Polled(v, q, c).deferred.None? ==> v.deferred.None? && q == []
    decreases |q|
  {
    if q != [] { NothingDeferred(Handled(v, q[0], c), q[1..], c); }
  }

  lemma OlderAndNewest<M>(q: seq<Event<M>>, n: nat)
    requires OnlyMessages(q)
    ensures Older(q, n) + Newest(q, n) == q && OnlyMessages(Newest(q, n))
  {
  }

  /** What is kept back from a queue that comes while a command has the input. */
  lemma SessionKeeps<M>(v: View<M>, q: seq<Event<M>>, c: Setup)
    requires v.insert && v.deferred.None? && OnlyMessages(q) && q != [] && c.cap > 0
    ensures var u := Polled(v, q, c);
      u.insert && u.deferred == Some(Newest(q, c.cap)) && u.shown == v.shown && u.gone == v.gone + Older(q, c.cap)
  {
    NewestAreKept(v, q, c);
    NothingDeferred(v, q, c);
    assert Kept(v) + q == q;
  }

  /** A command takes the input, messages arrive, and it gives the input back: then the
      newest of them that a queue holds are shown, all are released in order, and the
      console is as it was. */
  lemma SessionShows<M>(v: View<M>, q: seq<Event<M>>, c: Setup)
    requires !v.insert && v.deferred.None? && v.discarded == 0 && OnlyMessages(q) && c.cap > 0
    ensures Polled(Polled(Polled(v, [Recv(Takes)], c), q, c), [Recv(GivesBack)], c) ==
      v.(shown := v.shown + Visible(if |q| <= c.cap then q else q[|q| - c.cap..], c), gone := v.gone + q)
  {
    InputIs(v, Takes, c);
    var v1 := v.(insert := true);
    if q == [] {
      InputIs(v1, GivesBack, c);
    } else {
      SessionKeeps(v1, q, c);
      OlderAndNewest(q, c.cap);
      RestShown(Polled(v1, q, c), v.gone, Older(q, c.cap), c);
    }
  }
}
