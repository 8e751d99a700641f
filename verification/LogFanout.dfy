/**
 Reference counting of log messages.

 `OvmsCommandApp::Log` hands one message to every registered receiver.  From
 there it moves through bounded queues, a drop-oldest queue of deferred messages
 and several destruction paths, each of which must drop exactly one reference.
 The machine below interleaves the logging task, any number of consoles, the
 commands that flush their deferred queues, and the file log task.
 */
module LogFanout {
  import opened Common

  /** A queue entry: device input, the file log's exit command, or a log message. */
  datatype Event = Recv | Exit | Msg(msg: nat)

  /** `Draining` is a destructor inside `DeleteEventQueue`: `held` has already been
      detached from the console; `last` tells the deferred queue from the main one. */
  datatype Life = Alive | NotReady | Deregistered | Draining(held: seq<Event>, last: bool) | Dead

  /** `finalise()`, run by the command that gives the input back. */
  datatype Flush = NoFlush | Polling | Showing(msg: nat) | Deleting

  /** `hand` is the message being shown; `sending` one that the console thread is about
      to put into the deferred queue, having found `m_insert` set. */
  datatype Console = Console(
    life: Life,
    ready: bool,
    registered: bool,
    insert: bool,
    queue: Option<seq<Event>>,
    deferred: Option<seq<Event>>,
    hand: Option<nat>,
    sending: Option<nat>,
    flush: Flush)

  datatype Receiver = ToConsole(id: nat) | ToFile

  /** A running `Log` call: it holds the consoles mutex until it is done. */
  datatype Fan = NoFan | Fan(msg: nat, left: seq<Receiver>)

  datatype FileTask = Off | Running | Holding(msg: nat) | Emptying | Ending

  datatype State = State(
    cap: nat,
    refs: map<nat, nat>,
    freed: set<nat>,
    unheard: set<nat>,
    stranded: seq<Event>,
    nextMsg: nat,
    fan: Fan,
    consoles: seq<Console>,
    fileRegistered: bool,
    fileTask: FileTask,
    fileQueue: Option<seq<Event>>)

  datatype Action =
    | OpenConsole(withQueue: bool)
    | LogBegin(order: seq<Receiver>) | HandOver | LogEnd
    | Receive(c: nat) | DeferSend(c: nat) | Display(c: nat) | Input(c: nat) | TakeInput(c: nat) | GiveInput(c: nat)
    | FlushBegin(c: nat) | FlushReceive(c: nat) | FlushDisplay(c: nat) | FlushEmpty(c: nat) | FlushDelete(c: nat)
    | Close(c: nat) | Deregister(c: nat) | Detach(c: nat) | Drop(c: nat) | Drained(c: nat)
    | StartFile | StopFile | SendExit | FileReceive | FileWrite(failed: bool) | FileDrop | FileEmpty | FileDelete

  ghost function Init(cap: nat): State {
    State(cap, map[], {}, {}, [], 0, NoFan, [], false, Off, None)
  }

  // ------------------------------------------------------------------ steps

  /** `LogBuffers::release`: the last release deletes the message. */
  ghost function Release(s: State, m: nat): State {
    if m in s.refs && s.refs[m] == 1
    then s.(refs := map k | k in s.refs && k != m :: s.refs[k], freed := s.freed + {m})
    else if m in s.refs && s.refs[m] > 0 then s.(refs := s.refs[m := s.refs[m] - 1])
    else s
  }

  ghost function Put(s: State, c: nat, console: Console): State
    requires c < |s.consoles|
  {
    s.(consoles := s.consoles[c := console])
  }

  /** The receivers registered now. */
  ghost function Receivers(s: State): set<Receiver> {
    (set c | 0 <= c < |s.consoles| && s.consoles[c].registered :: ToConsole(c))
    + if s.fileRegistered then {ToFile} else {}
  }

  ghost predicate Has(s: State, c: nat, life: Life) {
    c < |s.consoles| && s.consoles[c].life == life
  }

  ghost predicate Working(s: State, c: nat) {
    Has(s, c, Alive) && s.consoles[c].hand.None? && s.consoles[c].sending.None? && s.consoles[c].queue.Some?
  }

  ghost predicate Enabled(s: State, a: Action) {
    match a
    case OpenConsole(_) => s.fan.NoFan?
    case LogBegin(order) =>
      && s.fan.NoFan?
      && |order| == |Receivers(s)| && (forall r | r in order :: r in Receivers(s))
      && (forall i, j | 0 <= i < j < |order| :: order[i] != order[j])
    case HandOver => s.fan.Fan? && s.fan.left != []
    case LogEnd => s.fan.Fan? && s.fan.left == []
    case Receive(c) => Working(s, c) && s.consoles[c].queue.value != []
    case DeferSend(c) => Has(s, c, Alive) && s.consoles[c].sending.Some?
    case Display(c) => Has(s, c, Alive) && s.consoles[c].hand.Some?
    case Input(c) => Has(s, c, Alive) && s.consoles[c].queue.Some? && |s.consoles[c].queue.value| < s.cap
    case TakeInput(c) => Has(s, c, Alive)
    case GiveInput(c) => Has(s, c, Alive)
    case FlushBegin(c) => Has(s, c, Alive) && s.consoles[c].deferred.Some? && s.consoles[c].flush.NoFlush?
    case FlushReceive(c) =>
      && Has(s, c, Alive) && s.consoles[c].flush.Polling?
      && s.consoles[c].deferred.Some? && s.consoles[c].deferred.value != []
    case FlushDisplay(c) => Has(s, c, Alive) && s.consoles[c].flush.Showing?
    case FlushEmpty(c) =>
      Has(s, c, Alive) && s.consoles[c].flush.Polling? && s.consoles[c].deferred == Some([])
    case FlushDelete(c) => Has(s, c, Alive) && s.consoles[c].flush.Deleting? && s.consoles[c].deferred.Some?
    case Close(c) =>
      Has(s, c, Alive) && s.consoles[c].hand.None? && s.consoles[c].sending.None? && s.consoles[c].flush.NoFlush?
    case Deregister(c) => Has(s, c, NotReady) && s.fan.NoFan?
    case Detach(c) => Has(s, c, Deregistered)
    case Drop(c) => c < |s.consoles| && s.consoles[c].life.Draining? && s.consoles[c].life.held != []
    case Drained(c) => c < |s.consoles| && s.consoles[c].life.Draining? && s.consoles[c].life.held == []
    case StartFile => s.fan.NoFan? && s.fileTask.Off?
    case StopFile => s.fan.NoFan? && !s.fileTask.Off?
    case SendExit => !s.fileTask.Off? && s.fileQueue.Some? && |s.fileQueue.value| < s.cap
    case FileReceive => s.fileTask.Running? && s.fileQueue.Some? && s.fileQueue.value != []
    case FileWrite(_) => s.fileTask.Holding?
    case FileDrop => s.fileTask.Emptying? && s.fileQueue.Some? && s.fileQueue.value != []
    case FileEmpty => s.fileTask.Emptying? && s.fileQueue == Some([])
    case FileDelete => s.fileTask.Ending? && s.fileQueue.Some?
  }

  /** `OvmsConsole::Log` or `OvmsCommandApp::Log(LogBuffers*)` for the next receiver. */
  ghost function HandOverTo(s: State, r: Receiver, m: nat): State {
    match r
    case ToConsole(c) =>
      if c < |s.consoles| && s.consoles[c].ready && s.consoles[c].queue.Some?
         && |s.consoles[c].queue.value| < s.cap
      then Put(s, c, s.consoles[c].(queue := Some(s.consoles[c].queue.value + [Msg(m)])))
      else Release(s, m)
    case ToFile =>
      if !s.fileTask.Off? && s.fileQueue.Some? && |s.fileQueue.value| < s.cap
      then s.(fileQueue := Some(s.fileQueue.value + [Msg(m)]))
      else Release(s, m)
  }

  /** `OvmsConsole::Poll` with a message that must wait for the command in charge:
      a full deferred queue gives up its oldest message. */
  ghost function Defer(s: State, c: nat, e: Event): State
    requires c < |s.consoles|
  {
    var console := s.consoles[c];
    var d := if console.deferred.Some? then console.deferred.value else [];
    if |d| < s.cap || d == [] then Put(s, c, console.(deferred := Some(d + [e])))
    else
      var t := Put(s, c, console.(deferred := Some(d[1..] + [e])));
      if d[0].Msg? then Release(t, d[0].msg) else t
  }

  ghost function ReceiveNext(s: State, c: nat): State
    requires Enabled(s, Receive(c))
  {
    var console := s.consoles[c];
    var e := console.queue.value[0];
    Put(s, c, Handed(console.(queue := Some(console.queue.value[1..])), e))
  }

  /** The test of `m_insert` decides what becomes of a message. */
  ghost function Handed(console: Console, e: Event): Console {
    if !e.Msg? then console
    else if console.insert then console.(sending := Some(e.msg))
    else console.(hand := Some(e.msg))
  }

  ghost function DeferSendNext(s: State, c: nat): State
    requires Enabled(s, DeferSend(c))
  {
    Defer(Put(s, c, s.consoles[c].(sending := None)), c, Msg(s.consoles[c].sending.value))
  }

  ghost function FlushReceiveNext(s: State, c: nat): State
    requires Enabled(s, FlushReceive(c))
  {
    var console := s.consoles[c];
    var e := console.deferred.value[0];
    var t := Put(s, c, console.(deferred := Some(console.deferred.value[1..])));
    if !e.Msg? then t
    else if console.insert then Defer(t, c, e)
    else Put(t, c, t.consoles[c].(flush := Showing(e.msg)))
  }

  ghost function Next(s: State, a: Action): State
    requires Enabled(s, a)
  {
    match a
    case OpenConsole(withQueue) =>
      s.(consoles := s.consoles +
         [Console(Alive, true, true, false, if withQueue then Some([]) else None, None, None, None, NoFlush)])
    case LogBegin(order) =>
      var t := s.(refs := s.refs[s.nextMsg := |order|], fan := Fan(s.nextMsg, order), nextMsg := s.nextMsg + 1);
      if order == [] then t.(unheard := s.unheard + {s.nextMsg}) else t
    case HandOver =>
      HandOverTo(s.(fan := Fan(s.fan.msg, s.fan.left[1..])), s.fan.left[0], s.fan.msg)
    case LogEnd => s.(fan := NoFan)
    case Receive(c) => ReceiveNext(s, c)
    case DeferSend(c) => DeferSendNext(s, c)
    case Display(c) => Release(Put(s, c, s.consoles[c].(hand := None)), s.consoles[c].hand.value)
    case Input(c) => Put(s, c, s.consoles[c].(queue := Some(s.consoles[c].queue.value + [Recv])))
    case TakeInput(c) => Put(s, c, s.consoles[c].(insert := true))
    case GiveInput(c) => Put(s, c, s.consoles[c].(insert := false))
    case FlushBegin(c) => Put(s, c, s.consoles[c].(flush := Polling))
    case FlushReceive(c) => FlushReceiveNext(s, c)
    case FlushDisplay(c) => Release(Put(s, c, s.consoles[c].(flush := Polling)), s.consoles[c].flush.msg)
    case FlushEmpty(c) => Put(s, c, s.consoles[c].(flush := Deleting))
    case FlushDelete(c) =>
      Put(s, c, s.consoles[c].(deferred := None, flush := NoFlush))
        .(stranded := s.stranded + s.consoles[c].deferred.value)
    case Close(c) => Put(s, c, s.consoles[c].(life := NotReady, ready := false))
    case Deregister(c) => Put(s, c, s.consoles[c].(life := Deregistered, registered := false))
    case Detach(c) =>
      var console := s.consoles[c];
      Put(s, c, console.(queue := None,
        life := Draining(if console.queue.Some? then console.queue.value else [], false)))
    case Drop(c) =>
      var console := s.consoles[c];
      var t := Put(s, c, console.(life := Draining(console.life.held[1..], console.life.last)));
      if console.life.held[0].Msg? then Release(t, console.life.held[0].msg) else t
    case Drained(c) =>
      var console := s.consoles[c];
      if console.life.last then Put(s, c, console.(life := Dead))
      else Put(s, c, console.(deferred := None,
             life := Draining(if console.deferred.Some? then console.deferred.value else [], true)))
    case StartFile => s.(fileTask := Running, fileQueue := Some([]), fileRegistered := true)
    case StopFile => s.(fileRegistered := false)
    case SendExit => s.(fileQueue := Some(s.fileQueue.value + [Exit]))
    case FileReceive =>
      var t := s.(fileQueue := Some(s.fileQueue.value[1..]));
      if s.fileQueue.value[0].Msg? then t.(fileTask := Holding(s.fileQueue.value[0].msg))
      else t.(fileTask := Emptying)
    case FileWrite(failed) =>
      Release(s.(fileTask := if failed then Emptying else Running), s.fileTask.msg)
    case FileDrop =>
      var t := s.(fileQueue := Some(s.fileQueue.value[1..]));
      if s.fileQueue.value[0].Msg? then Release(t, s.fileQueue.value[0].msg) else t
    case FileEmpty => s.(fileTask := Ending)
    case FileDelete =>
      s.(fileTask := Off, fileQueue := None, stranded := s.stranded + s.fileQueue.value)
  }

  // ------------------------------------------------- references in the system

  /** How often a sequence of queue entries names message `k`. */
  ghost function Occ(q: seq<Event>, k: nat): nat {
    if q == [] then 0 else (if q[0] == Msg(k) then 1 else 0) + Occ(q[1..], k)
  }

  ghost function OccIn(q: Option<seq<Event>>, k: nat): nat {
    if q.Some? then Occ(q.value, k) else 0
  }

  /** References a console holds: queued, deferred, being destroyed, in hand, and on
      the way to the deferred queue. */
  ghost function Held(console: Console, k: nat): nat {
    OccIn(console.queue, k) + OccIn(console.deferred, k)
    + (if console.life.Draining? then Occ(console.life.held, k) else 0)
    + (if console.hand == Some(k) then 1 else 0)
    + (if console.sending == Some(k) then 1 else 0)
    + (if console.flush == Showing(k) then 1 else 0)
  }

  ghost function AllHeld(consoles: seq<Console>, k: nat): nat {
    if consoles == [] then 0 else Held(consoles[0], k) + AllHeld(consoles[1..], k)
  }

  ghost function FileHeld(s: State, k: nat): nat {
    OccIn(s.fileQueue, k) + if s.fileTask == Holding(k) then 1 else 0
  }

  /** Hand-overs the running `Log` call has still to make. */
  ghost function Owed(s: State, k: nat): nat {
    if s.fan.Fan? && s.fan.msg == k then |s.fan.left| else 0
  }

  /** Every reference to `k` in existence. */
  ghost function References(s: State, k: nat): nat {
    Owed(s, k) + AllHeld(s.consoles, k) + FileHeld(s, k)
  }

  /** The reference count of a live message; 0 for any other. */
  ghost function Count(s: State, k: nat): nat {
    if k in s.refs then s.refs[k] else 0
  }

  function One(b: bool): nat { if b then 1 else 0 }

  // --------------------------------------------------------------- lemmas

  lemma {:induction false} OccAppend(q: seq<Event>, r: seq<Event>, k: nat)
    ensures Occ(q + r, k) == Occ(q, k) + Occ(r, k)
  {
    if q == [] {
      assert q + r == r;
    } else {
      OccAppend(q[1..], r, k);
      assert (q + r)[1..] == q[1..] + r;
    }
  }

  lemma OccPush(q: seq<Event>, e: Event)
    ensures forall k :: Occ(q + [e], k) == Occ(q, k) + One(e == Msg(k))
  {
    forall k ensures Occ(q + [e], k) == Occ(q, k) + One(e == Msg(k)) {
      OccAppend(q, [e], k);
      assert Occ([e], k) == One(e == Msg(k)) + Occ([], k);
    }
  }

  lemma {:induction false} AllHeldUpdate(cs: seq<Console>, c: nat, console: Console, k: nat)
    requires c < |cs|
    ensures AllHeld(cs[c := console], k) + Held(cs[c], k) == AllHeld(cs, k) + Held(console, k)
  {
    if c == 0 {
      assert cs[c := console][1..] == cs[1..];
    } else {
      AllHeldUpdate(cs[1..], c - 1, console, k);
      assert cs[c := console][1..] == cs[1..][c - 1 := console];
    }
  }

  lemma {:induction false} AllHeldAppend(cs: seq<Console>, console: Console, k: nat)
    ensures AllHeld(cs + [console], k) == AllHeld(cs, k) + Held(console, k)
  {
    if cs == [] {
      assert cs + [console] == [console];
    } else {
      AllHeldAppend(cs[1..], console, k);
      assert (cs + [console])[1..] == cs[1..] + [console];
    }
  }

  // ------------------------------------------------------------- invariant

  /** The central claim: a message's count is the number of references to it,
      plus those lost with a queue that was deleted while it was not empty. */
  ghost predicate Balanced(s: State) {
    forall k :: Count(s, k) == References(s, k) + Occ(s.stranded, k)
  }

  ghost predicate Ids(s: State) {
    && (forall m | m in s.refs :: m < s.nextMsg && (s.refs[m] == 0 <==> m in s.unheard))
    && (forall m | m in s.freed :: m < s.nextMsg && m !in s.refs)
    && (forall m | m in s.unheard :: m in s.refs)
    && (forall m: nat | m < s.nextMsg :: m in s.refs || m in s.freed)
  }

  ghost predicate Shapes(s: State) {
    && s.cap > 0
    && (s.fileTask.Off? <==> s.fileQueue.None?)
    && (s.fan.Fan? ==> s.fan.msg < s.nextMsg)
  }

  ghost predicate Inv(s: State) {
    Balanced(s) && Ids(s) && Shapes(s)
  }

  /** Everything is in order but for one reference to `m` that is about to be
      dropped or moved. */
  ghost predicate Short(s: State, m: nat) {
    && Ids(s) && Shapes(s)
    && forall k :: Count(s, k) == References(s, k) + Occ(s.stranded, k) + One(k == m)
  }

  lemma ReleaseCounts(s: State, m: nat)
    requires Ids(s) && Count(s, m) > 0
    ensures Ids(Release(s, m))
    ensures forall k :: Count(Release(s, m), k) == Count(s, k) - One(k == m)
  {
  }

  lemma ReferencesFrame(s: State, t: State, k: nat)
    requires t.fan == s.fan && t.consoles == s.consoles && t.fileTask == s.fileTask && t.fileQueue == s.fileQueue
    ensures References(t, k) == References(s, k)
  {
  }

  /** Dropping a reference that exists keeps the balance: the message is live, so
      its memory is touched only while it exists. */
  lemma ReleaseBalances(s: State, m: nat)
    requires Short(s, m)
    ensures m in s.refs && m !in s.freed
    ensures Inv(Release(s, m))
    ensures Release(s, m).freed == if s.refs[m] == 1 then s.freed + {m} else s.freed
  {
    assert Count(s, m) > 0;
    var t := Release(s, m);
    ReleaseCounts(s, m);
    forall k ensures Count(t, k) == References(t, k) + Occ(t.stranded, k) {
      ReferencesFrame(s, t, k);
      assert Count(s, k) == References(s, k) + Occ(s.stranded, k) + One(k == m);
    }
  }

  lemma PutReferences(s: State, c: nat, console: Console, k: nat)
    requires c < |s.consoles|
    ensures References(Put(s, c, console), k) + Held(s.consoles[c], k) == References(s, k) + Held(console, k)
  {
    AllHeldUpdate(s.consoles, c, console, k);
  }

  // ------------------------------------------------- each step keeps Inv

  lemma PutSame(s: State, c: nat, console: Console)
    requires Inv(s) && c < |s.consoles|
    requires forall k :: Held(console, k) == Held(s.consoles[c], k)
    ensures Inv(Put(s, c, console))
  {
    var t := Put(s, c, console);
    forall k ensures Count(t, k) == References(t, k) + Occ(t.stranded, k) {
      PutReferences(s, c, console, k);
      assert Count(s, k) == References(s, k) + Occ(s.stranded, k);
    }
  }

  lemma PutLess(s: State, c: nat, console: Console, m: nat)
    requires Inv(s) && c < |s.consoles|
    requires forall k :: Held(s.consoles[c], k) == Held(console, k) + One(k == m)
    ensures Short(Put(s, c, console), m)
  {
    var t := Put(s, c, console);
    forall k ensures Count(t, k) == References(t, k) + Occ(t.stranded, k) + One(k == m) {
      PutReferences(s, c, console, k);
      assert Count(s, k) == References(s, k) + Occ(s.stranded, k);
    }
  }

  lemma PutMore(s: State, c: nat, console: Console, m: nat)
    requires Short(s, m) && c < |s.consoles|
    requires forall k :: Held(console, k) == Held(s.consoles[c], k) + One(k == m)
    ensures Inv(Put(s, c, console))
  {
    var t := Put(s, c, console);
    forall k ensures Count(t, k) == References(t, k) + Occ(t.stranded, k) {
      PutReferences(s, c, console, k);
      assert Count(s, k) == References(s, k) + Occ(s.stranded, k) + One(k == m);
    }
  }

  lemma PutSwap(s: State, c: nat, console: Console, m: nat, d: nat)
    requires Short(s, m) && c < |s.consoles|
    requires forall k :: Held(console, k) + One(k == d) == Held(s.consoles[c], k) + One(k == m)
    ensures Short(Put(s, c, console), d)
  {
    var t := Put(s, c, console);
    forall k ensures Count(t, k) == References(t, k) + Occ(t.stranded, k) + One(k == d) {
      PutReferences(s, c, console, k);
      assert Count(s, k) == References(s, k) + Occ(s.stranded, k) + One(k == m);
    }
  }

  /** A full deferred queue swaps its oldest message for the new one. */
  lemma DropOldestKeepsInv(s: State, c: nat, d: seq<Event>, m: nat)
    requires Short(s, m) && c < |s.consoles| && s.consoles[c].deferred == Some(d) && d != []
    ensures var t := Put(s, c, s.consoles[c].(deferred := Some(d[1..] + [Msg(m)])));
      if d[0].Msg? then Short(t, d[0].msg) else Inv(t)
  {
    var console' := s.consoles[c].(deferred := Some(d[1..] + [Msg(m)]));
    OccPush(d[1..], Msg(m));
    if d[0].Msg? { PutSwap(s, c, console', m, d[0].msg); } else { PutMore(s, c, console', m); }
  }

  lemma DeferKeepsInv(s: State, c: nat, m: nat)
    requires Short(s, m) && c < |s.consoles|
    ensures Inv(Defer(s, c, Msg(m)))
  {
    var console := s.consoles[c];
    var d := if console.deferred.Some? then console.deferred.value else [];
    if |d| < s.cap || d == [] {
      OccPush(d, Msg(m));
      PutMore(s, c, console.(deferred := Some(d + [Msg(m)])), m);
    } else {
      DropOldestKeepsInv(s, c, d, m);
      if d[0].Msg? {
        ReleaseBalances(Put(s, c, console.(deferred := Some(d[1..] + [Msg(m)]))), d[0].msg);
      }
    }
  }

  lemma ReceiveKeepsInv(s: State, c: nat)
    requires Inv(s) && Enabled(s, Receive(c))
    ensures Inv(Next(s, Receive(c)))
  {
    var console := s.consoles[c];
    PutSame(s, c, Handed(console.(queue := Some(console.queue.value[1..])), console.queue.value[0]));
  }

  lemma DeferSendKeepsInv(s: State, c: nat)
    requires Inv(s) && Enabled(s, DeferSend(c))
    ensures Inv(Next(s, DeferSend(c)))
  {
    var m := s.consoles[c].sending.value;
    PutLess(s, c, s.consoles[c].(sending := None), m);
    DeferKeepsInv(Put(s, c, s.consoles[c].(sending := None)), c, m);
  }

  lemma FlushReceiveKeepsInv(s: State, c: nat)
    requires Inv(s) && Enabled(s, FlushReceive(c))
    ensures Inv(Next(s, FlushReceive(c)))
  {
    var console := s.consoles[c];
    var e := console.deferred.value[0];
    var console' := console.(deferred := Some(console.deferred.value[1..]));
    if !e.Msg? {
      PutSame(s, c, console');
    } else {
      PutLess(s, c, console', e.msg);
      var t := Put(s, c, console');
      if console.insert {
        DeferKeepsInv(t, c, e.msg);
      } else {
        PutMore(t, c, console'.(flush := Showing(e.msg)), e.msg);
      }
    }
  }

  lemma HandOverToKeepsInv(s: State, r: Receiver, m: nat)
    requires Short(s, m)
    ensures Inv(HandOverTo(s, r, m))
  {
    match r
    case ToConsole(c) =>
      if c < |s.consoles| && s.consoles[c].ready && s.consoles[c].queue.Some?
         && |s.consoles[c].queue.value| < s.cap {
        OccPush(s.consoles[c].queue.value, Msg(m));
        PutMore(s, c, s.consoles[c].(queue := Some(s.consoles[c].queue.value + [Msg(m)])), m);
      } else {
        ReleaseBalances(s, m);
      }
    case ToFile =>
      if !s.fileTask.Off? && s.fileQueue.Some? && |s.fileQueue.value| < s.cap {
        var t := s.(fileQueue := Some(s.fileQueue.value + [Msg(m)]));
        OccPush(s.fileQueue.value, Msg(m));
        forall k ensures Count(t, k) == References(t, k) + Occ(t.stranded, k) {
          assert Count(s, k) == References(s, k) + Occ(s.stranded, k) + One(k == m);
        }
      } else {
        ReleaseBalances(s, m);
      }
  }

  lemma HandOverKeepsInv(s: State)
    requires Inv(s) && Enabled(s, HandOver)
    ensures Inv(Next(s, HandOver))
  {
    var m := s.fan.msg;
    var t := s.(fan := Fan(m, s.fan.left[1..]));
    forall k ensures Count(t, k) == References(t, k) + Occ(t.stranded, k) + One(k == m) {
      assert Count(s, k) == References(s, k) + Occ(s.stranded, k);
    }
    HandOverToKeepsInv(t, s.fan.left[0], m);
  }

  lemma LogBeginKeepsInv(s: State, order: seq<Receiver>)
    requires Inv(s) && Enabled(s, LogBegin(order))
    ensures Inv(Next(s, LogBegin(order)))
  {
    var t := Next(s, LogBegin(order));
    forall k ensures Count(t, k) == References(t, k) + Occ(t.stranded, k) {
      assert Count(s, k) == References(s, k) + Occ(s.stranded, k);
    }
  }

  lemma LogEndKeepsInv(s: State)
    requires Inv(s) && Enabled(s, LogEnd)
    ensures Inv(Next(s, LogEnd))
  {
    var t := Next(s, LogEnd);
    forall k ensures Count(t, k) == References(t, k) + Occ(t.stranded, k) {
      assert Count(s, k) == References(s, k) + Occ(s.stranded, k);
    }
  }

  lemma OpenKeepsInv(s: State, withQueue: bool)
    requires Inv(s) && Enabled(s, OpenConsole(withQueue))
    ensures Inv(Next(s, OpenConsole(withQueue)))
  {
    var t := Next(s, OpenConsole(withQueue));
    var console := t.consoles[|s.consoles|];
    forall k ensures Count(t, k) == References(t, k) + Occ(t.stranded, k) {
      AllHeldAppend(s.consoles, console, k);
      assert Count(s, k) == References(s, k) + Occ(s.stranded, k);
    }
  }

  lemma ConsoleStepKeepsInv(s: State, a: Action)
    requires Inv(s) && Enabled(s, a)
    requires a.Input? || a.TakeInput? || a.GiveInput? || a.FlushBegin? || a.FlushEmpty? || a.Close? || a.Deregister? || a.Detach?
    ensures Inv(Next(s, a))
  {
    var c := a.c;
    if a.Input? { OccPush(s.consoles[c].queue.value, Recv); }
    PutSame(s, c, Next(s, a).consoles[c]);
  }

  lemma ShowKeepsInv(s: State, a: Action)
    requires Inv(s) && Enabled(s, a) && (a.Display? || a.FlushDisplay?)
    ensures Inv(Next(s, a))
  {
    var console := s.consoles[a.c];
    var m := if a.Display? then console.hand.value else console.flush.msg;
    var console' := if a.Display? then console.(hand := None) else console.(flush := Polling);
    PutLess(s, a.c, console', m);
    ReleaseBalances(Put(s, a.c, console'), m);
  }

  lemma DestroyKeepsInv(s: State, a: Action)
    requires Inv(s) && Enabled(s, a) && (a.Drop? || a.Drained?)
    ensures Inv(Next(s, a))
  {
    var console := s.consoles[a.c];
    if a.Drop? {
      var console' := console.(life := Draining(console.life.held[1..], console.life.last));
      if console.life.held[0].Msg? {
        PutLess(s, a.c, console', console.life.held[0].msg);
        ReleaseBalances(Put(s, a.c, console'), console.life.held[0].msg);
      } else {
        PutSame(s, a.c, console');
      }
    } else {
      PutSame(s, a.c, Next(s, a).consoles[a.c]);
    }
  }

  lemma FlushDeleteKeepsInv(s: State, c: nat)
    requires Inv(s) && Enabled(s, FlushDelete(c))
    ensures Inv(Next(s, FlushDelete(c)))
  {
    var t := Next(s, FlushDelete(c));
    forall k ensures Count(t, k) == References(t, k) + Occ(t.stranded, k) {
      PutReferences(s, c, t.consoles[c], k);
      ReferencesFrame(Put(s, c, t.consoles[c]), t, k);
      OccAppend(s.stranded, s.consoles[c].deferred.value, k);
      assert Count(s, k) == References(s, k) + Occ(s.stranded, k);
    }
  }

  lemma FileStepKeepsInv(s: State, a: Action)
    requires Inv(s) && Enabled(s, a) && (a.StartFile? || a.StopFile? || a.FileEmpty?)
    ensures Inv(Next(s, a))
  {
    var t := Next(s, a);
    forall k ensures Count(t, k) == References(t, k) + Occ(t.stranded, k) {
      assert Count(s, k) == References(s, k) + Occ(s.stranded, k);
    }
  }

  lemma FileReceiveKeepsInv(s: State)
    requires Inv(s) && Enabled(s, FileReceive)
    ensures Inv(Next(s, FileReceive))
  {
    var t := Next(s, FileReceive);
    forall k ensures Count(t, k) == References(t, k) + Occ(t.stranded, k) {
      assert Count(s, k) == References(s, k) + Occ(s.stranded, k);
    }
  }

  lemma FileQueueKeepsInv(s: State, a: Action)
    requires Inv(s) && Enabled(s, a) && (a.SendExit? || a.FileDelete?)
    ensures Inv(Next(s, a))
  {
    var t := Next(s, a);
    OccPush(s.fileQueue.value, Exit);
    forall k ensures Count(t, k) == References(t, k) + Occ(t.stranded, k) {
      OccAppend(s.stranded, s.fileQueue.value, k);
      assert Count(s, k) == References(s, k) + Occ(s.stranded, k);
    }
  }

  lemma FileReleaseKeepsInv(s: State, a: Action)
    requires Inv(s) && Enabled(s, a) && (a.FileWrite? || a.FileDrop?)
    ensures Inv(Next(s, a))
  {
    if a.FileWrite? {
      var t := s.(fileTask := if a.failed then Emptying else Running);
      forall k ensures Count(t, k) == References(t, k) + Occ(t.stranded, k) + One(k == s.fileTask.msg) {
        assert Count(s, k) == References(s, k) + Occ(s.stranded, k);
      }
      ReleaseBalances(t, s.fileTask.msg);
    } else {
      var t := s.(fileQueue := Some(s.fileQueue.value[1..]));
      if s.fileQueue.value[0].Msg? {
        var m := s.fileQueue.value[0].msg;
        forall k ensures Count(t, k) == References(t, k) + Occ(t.stranded, k) + One(k == m) {
          assert Count(s, k) == References(s, k) + Occ(s.stranded, k);
        }
        ReleaseBalances(t, m);
      } else {
        forall k ensures Count(t, k) == References(t, k) + Occ(t.stranded, k) {
          assert Count(s, k) == References(s, k) + Occ(s.stranded, k);
        }
      }
    }
  }

  lemma StepKeepsInv(s: State, a: Action)
    requires Inv(s) && Enabled(s, a)
    ensures Inv(Next(s, a))
  {
    match a
    case OpenConsole(withQueue) => OpenKeepsInv(s, withQueue);
    case LogBegin(order) => LogBeginKeepsInv(s, order);
    case LogEnd => LogEndKeepsInv(s);
    case HandOver => HandOverKeepsInv(s);
    case Receive(c) => ReceiveKeepsInv(s, c);
    case DeferSend(c) => DeferSendKeepsInv(s, c);
    case FlushReceive(c) => FlushReceiveKeepsInv(s, c);
    case Display(_) | FlushDisplay(_) => ShowKeepsInv(s, a);
    case Drop(_) | Drained(_) => DestroyKeepsInv(s, a);
    case FlushDelete(c) => FlushDeleteKeepsInv(s, c);
    case StartFile | StopFile | FileEmpty => FileStepKeepsInv(s, a);
    case FileReceive => FileReceiveKeepsInv(s);
    case SendExit | FileDelete => FileQueueKeepsInv(s, a);
    case FileWrite(_) | FileDrop => FileReleaseKeepsInv(s, a);
    case _ => ConsoleStepKeepsInv(s, a);
  }
}
