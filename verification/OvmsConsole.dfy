/**
 The console as it is programmed: log messages queued for it, shown or kept back by
 `Poll`, and released when it is done with them.
 */
module OvmsConsole {
  import opened Common
  import opened ConsoleQueue
  import ConsoleShows

  class LogBuffers {
    var refcount: int

    constructor (count: int)
      ensures refcount == count
    {
      refcount := count;
    }

    method Release()
      modifies this
      ensures refcount == old(refcount) - 1
    {
      refcount := refcount - 1;
    }
  }

  const WORD: nat := 0x1_0000_0000

  /** `unsigned int`. */
  type Word = n: nat | n < WORD

  type LogEvent = Event<LogBuffers>

  /** The messages of a queue are among these. */
  ghost predicate From(q: seq<LogEvent>, msgs: set<LogBuffers>) {
    forall i | 0 <= i < |q| && q[i].Message? :: q[i].msg in msgs
  }

  class OvmsConsole {
    const cap: nat
    var ready: bool
    var monitoring: bool
    var queue: Option<seq<LogEvent>>
    var deferred: Option<seq<LogEvent>>
    var insert: bool
    var discarded: nat
    var lost: Word
    var acked: Word
    ghost var shown: seq<LogEvent>
    ghost var gone: seq<LogEvent>

    ghost function Now(): View<LogBuffers>
      reads this
    {
      View(deferred, insert, discarded, shown, gone)
    }

    ghost function Set(): Setup
      reads this
    {
      Setup(cap, monitoring)
    }

    constructor (cap: nat)
      ensures Now() == View(None, false, 0, [], []) && queue == Some([]) && ready && this.cap == cap
      ensures lost == acked == 0
    {
      this.cap, ready, monitoring := cap, true, false;
      queue, deferred, insert, discarded := Some([]), None, false, 0;
      lost, acked, shown, gone := 0, 0, [], [];
    }

    /** Whether a message handed over now will be queued. */
    ghost predicate Accepts()
      reads this
    {
      ready && queue.Some? && |queue.value| < cap
    }

    /** Queues a message, or releases it if there is no room or nobody listens. */
    method Log(message: LogBuffers, text: bool)
      modifies this`queue, this`lost, message
      ensures if old(Accepts()) then
                && queue == Some(old(queue).value + [Message(message, text)])
                && message.refcount == old(message.refcount) && lost == old(lost)
              else
                && queue == old(queue) && message.refcount == old(message.refcount) - 1
                && lost == if ready && old(queue).Some? then (old(lost) + 1) % WORD else old(lost)
    {
      if !ready || queue.None? {
        message.Release();
        return;
      }
      if |queue.value| < cap {
        queue := Some(queue.value + [Message(message, text)]);
      } else {
        message.Release();
        lost := (lost + 1) % WORD;
      }
    }

    /** Releases a message the console is done with. */
    method Drop(e: LogEvent, ghost msgs: set<LogBuffers>)
      requires e.Message? && e.msg in msgs
      modifies this`gone, msgs
      ensures gone == old(gone) + [e]
      ensures forall m | m in msgs :: m.refcount == old(m.refcount) - if m == e.msg then 1 else 0
      ensures forall m | m in msgs :: m.refcount + Occ(gone, m) == old(m.refcount + Occ(gone, m))
    {
      e.msg.Release();
      gone := gone + [e];
      forall m | m in msgs ensures m.refcount + Occ(gone, m) == old(m.refcount + Occ(gone, m)) {
        OccAppend(old(gone), [e], m);
      }
    }

    method Show(e: LogEvent, ghost msgs: set<LogBuffers>)
      requires e.Message? && e.msg in msgs
      modifies this`shown, this`gone, msgs
      ensures Now() == Shown(old(Now()), e, Set())
      ensures forall m | m in msgs :: m.refcount + Occ(gone, m) == old(m.refcount + Occ(gone, m))
    {
      if monitoring && e.text {
        shown := shown + [e];
      }
      Drop(e, msgs);
    }

    /** Keeps a message back while a command has the input. */
    method Defer(e: LogEvent, ghost msgs: set<LogBuffers>)
      requires e.Message? && From([e], msgs) && OnlyMessages(Kept(Now())) && From(Kept(Now()), msgs)
      modifies this`deferred, this`discarded, this`gone, msgs
      ensures Now() == Deferred(old(Now()), e, Set())
      ensures OnlyMessages(Kept(Now())) && From(Kept(Now()), msgs)
      ensures forall m | m in msgs :: m.refcount + Occ(gone, m) == old(m.refcount + Occ(gone, m))
    {
      assert e == [e][0];
      if deferred.None? {
        deferred := Some([]);
      }
      if |deferred.value| < cap || deferred.value == [] {
        deferred := Some(deferred.value + [e]);
      } else {
        var discard := deferred.value[0];
        deferred := Some(deferred.value[1..] + [e]);
        Drop(discard, msgs);
        discarded := discarded + 1;
      }
    }

    /** `finalise`: the command has given the input back. */
    method Finalise(ghost msgs: set<LogBuffers>)
      requires !insert && OnlyMessages(Kept(Now())) && From(Kept(Now()), msgs)
      modifies this`deferred, this`discarded, this`shown, this`gone, msgs
      ensures Now() == Finalised(old(Now()), Set())
      ensures old(deferred).None? ==> Now() == old(Now())
      ensures old(deferred).Some? ==>
        && deferred == None && discarded == 0 && insert == old(insert) && gone == old(gone) + old(deferred).value
        && shown == old(shown) + ConsoleShows.Visible(old(deferred).value, Set())
      ensures OnlyMessages(Kept(Now())) && From(Kept(Now()), msgs)
      ensures forall m | m in msgs :: m.refcount + Occ(gone, m) == old(m.refcount + Occ(gone, m))
    {
      ConsoleShows.FlushShows(Now(), Set());
      if deferred.None? {
        return;
      }
      var q := deferred.value;
      deferred, discarded := None, 0;
      ghost var start := Now();
      AllShownConservesFields(start, q, Set());
      while q != []
        invariant deferred == None && OnlyMessages(q) && From(q, msgs)
        invariant AllShown(Now(), q, Set()) == AllShown(start, old(deferred).value, Set())
        invariant forall m | m in msgs :: m.refcount + Occ(gone, m) == old(m.refcount + Occ(gone, m))
        decreases |q|
      {
        Show(q[0], msgs);
        q := q[1..];
      }
    }

    method Handle(e: LogEvent, ghost msgs: set<LogBuffers>)
      requires From([e], msgs) && OnlyMessages(Kept(Now())) && From(Kept(Now()), msgs)
      modifies this`deferred, this`insert, this`discarded, this`shown, this`gone, msgs
      ensures Now() == Handled(old(Now()), e, Set())
      ensures OnlyMessages(Kept(Now())) && From(Kept(Now()), msgs)
      ensures forall m | m in msgs :: m.refcount + Occ(gone, m) == old(m.refcount + Occ(gone, m))
    {
      assert e == [e][0];
      match e
      case Recv(effect) =>
        if effect.Takes? {
          insert := true;
        } else if effect.GivesBack? && insert {
          insert := false;
          Finalise(msgs);
        }
      case Message(_, _) =>
        if insert {
          Defer(e, msgs);
        } else {
          Show(e, msgs);
        }
    }

    /** Handles what is in the queue, and reports messages lost since the last time.
        Every message released is released once. */
    method Poll(ghost msgs: set<LogBuffers>)
      requires OnlyMessages(Kept(Now())) && From(Kept(Now()), msgs)
      requires queue.Some? ==> From(queue.value, msgs)
      modifies this`queue, this`deferred, this`insert, this`discarded, this`shown, this`gone, this`acked, msgs
      ensures old(queue).None? ==> Now() == old(Now()) && queue == None
      ensures old(queue).Some? ==> Now() == Polled(old(Now()), old(queue).value, Set()) && queue == Some([]) && acked == lost
      ensures old(queue).Some? && !old(insert) && OnlyMessages(old(queue).value) ==>
        && shown == old(shown) + ConsoleShows.Visible(old(queue).value, Set()) && gone == old(gone) + old(queue).value
        && deferred == old(deferred) && !insert && discarded == old(discarded)
      ensures OnlyMessages(Kept(Now())) && From(Kept(Now()), msgs)
      ensures forall m | m in msgs :: m.refcount + Occ(gone, m) == old(m.refcount + Occ(gone, m))
    {
      if queue.None? {
        return;
      }
      if !insert && OnlyMessages(queue.value) {
        ConsoleShows.FreePollShows(Now(), queue.value, Set());
      }
      HandleAll(msgs);
      var missing := ReportLost();
    }

    /** What the notice of lost messages counts, modulo 2^32, is then acknowledged. */
    method ReportLost() returns (missing: Word)
      modifies this`acked
      ensures (old(acked) + missing) % WORD == lost && acked == lost
    {
      missing := (lost - acked + WORD) % WORD;
      if missing > 0 {
        acked := (acked + missing) % WORD;
      }
    }

    method HandleAll(ghost msgs: set<LogBuffers>)
      requires queue.Some? && OnlyMessages(Kept(Now())) && From(Kept(Now()), msgs) && From(queue.value, msgs)
      modifies this`queue, this`deferred, this`insert, this`discarded, this`shown, this`gone, msgs
      ensures Now() == Polled(old(Now()), old(queue).value, Set()) && queue == Some([])
      ensures OnlyMessages(Kept(Now())) && From(Kept(Now()), msgs)
      ensures forall m | m in msgs :: m.refcount + Occ(gone, m) == old(m.refcount + Occ(gone, m))
    {
      ghost var end := Polled(Now(), queue.value, Set());
      while queue.value != []
        invariant queue.Some? && From(queue.value, msgs)
        invariant OnlyMessages(Kept(Now())) && From(Kept(Now()), msgs)
        invariant Polled(Now(), queue.value, Set()) == end
        invariant forall m | m in msgs :: m.refcount + Occ(gone, m) == old(m.refcount + Occ(gone, m))
        decreases |queue.value|
      {
        var event := queue.value[0];
        assert From([event], msgs);
        queue := Some(queue.value[1..]);
        Handle(event, msgs);
      }
    }

    /** Releases what is left in a queue that has been detached from the console. */
    method DeleteEventQueue(q: seq<LogEvent>, ghost msgs: set<LogBuffers>)
      requires From(q, msgs)
      modifies this`gone, msgs
      ensures forall m | m in msgs :: m.refcount == old(m.refcount) - Occ(q, m)
    {
      var rest := q;
      while rest != []
        invariant From(rest, msgs)
        invariant forall m | m in msgs :: m.refcount - Occ(rest, m) == old(m.refcount) - Occ(q, m)
        decreases |rest|
      {
        if rest[0].Message? {
          Drop(rest[0], msgs);
        }
        rest := rest[1..];
      }
    }

    /** The destructor: the console stops listening and releases what it still has. */
    method Delete(ghost msgs: set<LogBuffers>)
      requires From(Kept(Now()), msgs) && (queue.Some? ==> From(queue.value, msgs))
      modifies this, msgs
      ensures !ready && queue == None && deferred == None
      ensures forall m | m in msgs ::
        m.refcount == old(m.refcount) - old((if queue.Some? then Occ(queue.value, m) else 0) + Occ(Kept(Now()), m))
    {
      ready := false;
      var q, d := queue, deferred;
      queue, deferred := None, None;
      if q.Some? {
        DeleteEventQueue(q.value, msgs);
      }
      if d.Some? {
        DeleteEventQueue(d.value, msgs);
      }
    }
  }

  /** A console's queue after a hand-over, if it took the message. */
  function After(q: Option<seq<LogEvent>>, took: bool, e: LogEvent): Option<seq<LogEvent>> {
    if took && q.Some? then Some(q.value + [e]) else q
  }

  /** `OvmsCommandApp::Log` with a formatted message: its count is set to the number of
      consoles, each of which takes it or releases it, so that it ends as the number
      of queues the message is in. */
  method LogToAll(consoles: seq<OvmsConsole>, text: bool) returns (lb: LogBuffers)
    requires forall i, j | 0 <= i < j < |consoles| :: consoles[i] != consoles[j]
    modifies consoles
    ensures fresh(lb) && lb.refcount == |old(set c | c in consoles && c.Accepts())|
    ensures forall c | c in consoles :: c.queue == After(old(c.queue), old(c.Accepts()), Message(lb, text))
  {
    ghost var taken := {};
    lb := new LogBuffers(|consoles|);
    var i := 0;
    while i < |consoles|
      invariant i <= |consoles| && lb.refcount == |consoles| - i + |taken|
      invariant forall k | 0 <= k < |consoles| :: consoles[k] in taken <==> k < i && old(consoles[k].Accepts())
      invariant taken <= set c | c in consoles
      invariant forall k | 0 <= k < i :: consoles[k].queue == After(old(consoles[k].queue), consoles[k] in taken, Message(lb, text))
      invariant forall k | i <= k < |consoles| ::
        consoles[k].queue == old(consoles[k].queue) && consoles[k].ready == old(consoles[k].ready)
    {
      var c := consoles[i];
      ghost var accepts := c.Accepts();
      c.Log(lb, text);
      if accepts {
        taken := taken + {c};
      }
      i := i + 1;
    }
    assert taken == old(set c | c in consoles && c.Accepts());
  }
}
