/**
 Writers and readers of one metric, interleaved step by step: no reader misses the
 last value written.
 */
module ChangeProtocol {
  import opened ChangeBits

  /** A writer: comparing, storing the value, marking the metric defined, and setting
      the change bits. */
  datatype Writer = Resting | Differs(value: int) | Same | Stored | Marked

  /** A reader: joining (`InitialiseSlot`), polling, and reading after a poll that
      found a change. `seen` is the value it read last. */
  datatype Phase = Joining | Polling | Reading
  datatype Reader = Reader(phase: Phase, seen: int)

  /** `changed` is the set of readers whose change bit is set. */
  datatype State = State(initial: int, value: int, defined: bool, changed: set<ReaderId>,
                         writers: map<nat, Writer>, readers: map<ReaderId, Reader>)

  datatype Action =
    | Compare(w: nat, value: int)
    | Write(w: nat)
    | Join(r: ReaderId)
    | Read(r: ReaderId)

  function Init(initial: int): State {
    State(initial, initial, false, {}, map[], map[])
  }

  function WriterOf(s: State, w: nat): Writer {
    if w in s.writers then s.writers[w] else Resting
  }

  /** One step of one task. `Write` takes a writer on from where it is; `Read` polls
      or reads, whichever is next for the reader. */
  function Next(s: State, a: Action): State {
    match a
    case Compare(w, x) =>
      if WriterOf(s, w) != Resting then s
      else s.(writers := s.writers[w := if s.value != x then Differs(x) else Same])
    case Write(w) =>
      (match WriterOf(s, w)
       case Resting => s
       case Differs(x) => s.(value := x, writers := s.writers[w := Stored])
       case Same => s.(defined := true, writers := s.writers[w := Resting])
       case Stored => s.(defined := true, writers := s.writers[w := Marked])
       case Marked => s.(changed := AllReaders(), writers := s.writers[w := Resting]))
    case Join(r) =>
      if r !in s.readers then
        s.(readers := s.readers[r := Reader(if s.defined then Joining else Polling, s.initial)])
      else if s.readers[r].phase == Joining then
        s.(changed := s.changed + {r}, readers := s.readers[r := s.readers[r].(phase := Polling)])
      else s
    case Read(r) =>
      if r !in s.readers then s
      else
        match s.readers[r].phase
        case Joining => s
        case Polling =>
          s.(changed := s.changed - {r},
             readers := s.readers[r := s.readers[r].(phase := if r in s.changed then Reading else Polling)])
        case Reading => s.(readers := s.readers[r := Reader(Polling, s.value)])
  }

  function Run(s: State, acts: seq<Action>): State
    decreases |acts|
  {
    if acts == [] then s else Run(Next(s, acts[0]), acts[1..])
  }

  /** A writer has stored its value and not yet set the bits. */
  predicate Pending(w: Writer) {
    w == Stored || w == Marked
  }

  ghost predicate SomePending(s: State) {
    exists w: nat :: w in s.writers && Pending(s.writers[w])
  }

  /** The reader's last value is the current one, or the reader will be told. */
  ghost predicate UpToDate(s: State, r: ReaderId) {
    (r in s.readers && s.readers[r].phase == Polling && r !in s.changed && !SomePending(s)) ==>
      s.readers[r].seen == s.value
  }

  ghost predicate Inv(s: State) {
    && (forall r: ReaderId :: UpToDate(s, r))
    && (s.value != s.initial ==> s.defined || SomePending(s))
    && (forall w: nat | w in s.writers && s.writers[w] == Marked :: s.defined)
  }

  lemma WriteKeepsInv(s: State, w: nat)
    requires Inv(s)
    ensures Inv(Next(s, Write(w)))
  {
    var t := Next(s, Write(w));
    match WriterOf(s, w) {
      case Resting =>
      case Differs(_) =>
        assert Pending(t.writers[w]);
      case Stored =>
        assert Pending(t.writers[w]);
      case Same =>
        OthersPend(s, t, w);
        forall r: ReaderId ensures UpToDate(t, r) { assert UpToDate(s, r); }
      case Marked =>
        forall r: ReaderId ensures UpToDate(t, r) { }
    }
  }

  /** A step of a writer that pends neither before nor after changes nothing for the
      others. */
  lemma OthersPend(s: State, t: State, w: nat)
    requires forall v: nat | v != w :: WriterOf(t, v) == WriterOf(s, v)
    requires !Pending(WriterOf(s, w)) && !Pending(WriterOf(t, w))
    ensures SomePending(t) <==> SomePending(s)
  {
    if SomePending(s) {
      var v: nat :| v in s.writers && Pending(s.writers[v]);
      assert WriterOf(t, v) == WriterOf(s, v) == s.writers[v];
      assert v in t.writers && Pending(t.writers[v]);
    }
    if SomePending(t) {
      var v: nat :| v in t.writers && Pending(t.writers[v]);
      assert WriterOf(s, v) == WriterOf(t, v) == t.writers[v];
      assert v in s.writers && Pending(s.writers[v]);
    }
  }

  lemma ReaderKeepsInv(s: State, a: Action)
    requires Inv(s) && (a.Join? || a.Read?)
    ensures Inv(Next(s, a))
  {
    var t := Next(s, a);
    forall k: ReaderId ensures UpToDate(t, k) {
      assert UpToDate(s, k);
    }
  }

  lemma StepKeepsInv(s: State, a: Action)
    requires Inv(s)
    ensures Inv(Next(s, a))
  {
    match a
    case Compare(w, x) =>
      if WriterOf(s, w) == Resting { OthersPend(s, Next(s, a), w); }
      forall r: ReaderId ensures UpToDate(Next(s, a), r) { assert UpToDate(s, r); }
    case Write(w) => WriteKeepsInv(s, w);
    case Join(_) => ReaderKeepsInv(s, a);
    case Read(_) => ReaderKeepsInv(s, a);
  }

  lemma {:induction false} RunKeepsInv(s: State, acts: seq<Action>)
    requires Inv(s)
    ensures Inv(Run(s, acts))
    decreases |acts|
  {
    if acts != [] {
      StepKeepsInv(s, acts[0]);
      RunKeepsInv(Next(s, acts[0]), acts[1..]);
    }
  }

  /** No update is lost: whatever the interleaving, once no writer is between storing
      a value and setting the bits, an idle reader whose bit is clear has read the
      current value. */
  lemma NoLostUpdate(initial: int, acts: seq<Action>, r: ReaderId)
    ensures var s := Run(Init(initial), acts);
      (r in s.readers && s.readers[r].phase == Polling && r !in s.changed && !SomePending(s)) ==>
        s.readers[r].seen == s.value
  {
    RunKeepsInv(Init(initial), acts);
    assert UpToDate(Run(Init(initial), acts), r);
  }

  /** A poll, and the read if it found a change. */
  function AfterPoll(s: State, r: ReaderId): (t: State)
    requires r in s.readers
    ensures r in t.readers
  {
    var t := Next(s, Read(r));
    if t.readers[r].phase == Reading then Next(t, Read(r)) else t
  }

  /** So one poll, with the read it asks for, brings a reader up to date. */
  lemma PollBringsUpToDate(initial: int, acts: seq<Action>, r: ReaderId)
    ensures var s := Run(Init(initial), acts);
      (r in s.readers && s.readers[r].phase == Polling && !SomePending(s)) ==>
        AfterPoll(s, r).readers[r] == Reader(Polling, s.value)
  {
    NoLostUpdate(initial, acts, r);
  }

  /** What a reader does touches no other reader and no other reader's bit, nor the
      value or the writers. */
  lemma ReadersAreIndependent(s: State, a: Action, k: ReaderId)
    requires (a.Join? || a.Read?) && k != a.r
    ensures var t := Next(s, a);
      && (k in t.changed <==> k in s.changed)
      && (k in t.readers <==> k in s.readers)
      && (k in s.readers ==> t.readers[k] == s.readers[k])
      && t.value == s.value && t.defined == s.defined && t.writers == s.writers
  {
  }

  /** A writer left to itself stores what it was given; if that is new every reader's
      bit is set, if not none is touched. */
  lemma WriteTakesEffect(s: State, w: nat, x: int)
    requires WriterOf(s, w) == Resting
    ensures var t := Run(s, [Compare(w, x), Write(w), Write(w), Write(w)]);
      && t.value == x && t.defined && WriterOf(t, w) == Resting
      && t.changed == (if s.value != x then AllReaders() else s.changed)
      && t.readers == s.readers
  {
    var acts := [Compare(w, x), Write(w), Write(w), Write(w)];
    var s1 := Next(s, Compare(w, x));
    var s2 := Next(s1, Write(w));
    var s3 := Next(s2, Write(w));
    var s4 := Next(s3, Write(w));
    var rest := acts[1..];
    assert rest[0] == Write(w) && rest[1..][0] == Write(w) && rest[1..][1..] == [Write(w)] && [Write(w)][1..] == [];
    assert Run(s3, [Write(w)]) == Run(s4, []) == s4;
    assert Run(s2, rest[1..]) == s4 && Run(s1, rest) == s4;
  }

  /** Only a metric that has a value is ever reported. */
  ghost predicate ToldIsDefined(s: State) {
    && (s.changed != {} ==> s.defined)
    && (forall r | r in s.readers && s.readers[r].phase == Joining :: s.defined)
    && (forall w: nat | w in s.writers && s.writers[w] == Marked :: s.defined)
  }

  lemma {:induction false} AlwaysToldIsDefined(s: State, acts: seq<Action>)
    requires ToldIsDefined(s)
    ensures ToldIsDefined(Run(s, acts))
    decreases |acts|
  {
    if acts != [] { AlwaysToldIsDefined(Next(s, acts[0]), acts[1..]); }
  }
}
