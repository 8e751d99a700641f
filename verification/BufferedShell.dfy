/**
 The shell that collects output in a list of chunks: text written piece by piece
 into 64-byte buffers, log messages taken over or copied, and everything joined at
 the end.
 */
module BufferedShell {
  import opened CStrings

  const BUFFER_SIZE: nat := 64

  /** The text of a list of chunks. */
  ghost function TextOf(list: seq<array<char>>): (r: string)
    reads list
    ensures NUL !in r
  {
    if list == [] then ""
    else TextOf(list[..|list| - 1]) + CString(list[|list| - 1][..])
  }

  twostate lemma {:induction false} TextKept(list: seq<array<char>>)
    requires forall a | a in list :: a[..] == old(a[..])
    ensures TextOf(list) == old(TextOf(list))
  {
    if list != [] {
      assert forall a | a in list[..|list| - 1] :: a in list;
      TextKept(list[..|list| - 1]);
    }
  }

  lemma {:induction false} TextJoin(a: seq<array<char>>, b: seq<array<char>>)
    ensures TextOf(a + b) == TextOf(a) + TextOf(b)
  {
    if b == [] {
      assert a + b == a;
    } else {
      assert (a + b)[..|a + b| - 1] == a + b[..|b| - 1];
      TextJoin(a, b[..|b| - 1]);
    }
  }

  ghost predicate Apart(a: seq<array<char>>, b: seq<array<char>>) {
    forall i | 0 <= i < |a| :: a[i] !in b
  }

  /** The chunks hold these characters. */
  ghost predicate Hold(list: seq<array<char>>, contents: seq<seq<char>>)
    reads list
  {
    |list| == |contents| && forall i | 0 <= i < |list| :: list[i][..] == contents[i]
  }

  function JoinOf(contents: seq<seq<char>>): string {
    if contents == [] then "" else JoinOf(contents[..|contents| - 1]) + CString(contents[|contents| - 1])
  }

  lemma {:induction false} TextIsJoined(list: seq<array<char>>, contents: seq<seq<char>>)
    requires Hold(list, contents)
    ensures TextOf(list) == JoinOf(contents)
  {
    if list != [] { TextIsJoined(list[..|list| - 1], contents[..|list| - 1]); }
  }

  lemma Regroup(before: string, s: string, n: nat)
    requires n <= |s|
    ensures (before + s[..n]) + s[n..] == before + s
  {
  }

  lemma OneMoreJoined(contents: seq<seq<char>>, i: nat, before: string)
    requires i < |contents|
    ensures (before + JoinOf(contents[..i])) + CString(contents[i]) == before + JoinOf(contents[..i + 1])
  {
    assert contents[..i + 1][..i] == contents[..i];
  }

  // ------------------------------------------------------------- LogBuffers

  class LogBuffers {
    var list: seq<array<char>>
    var refcount: int
    ghost var freed: bool

    constructor ()
      ensures list == [] && refcount == 0 && !freed
    {
      list, refcount, freed := [], 0, false;
    }

    method Append(buffer: array<char>)
      modifies this`list
      ensures list == old(list) + [buffer]
    {
      list := list + [buffer];
    }

    method Release()
      requires refcount >= 1 && !freed
      modifies this`refcount, this`freed
      ensures refcount == old(refcount) - 1 && (freed <==> refcount == 0)
    {
      refcount := refcount - 1;
      if refcount == 0 {
        freed := true;
      }
    }

    predicate Last()
      reads this
    {
      refcount == 1
    }
  }

  // ---------------------------------------------------------- BufferedShell

  class BufferedShell {
    const prints: bool
    var left: nat
    var buffer: array?<char>
    var output: LogBuffers?
    /** The chunks the shell has allocated. */
    ghost var own: set<array<char>>

    /** Each of them, wherever it is by now, is 64 characters long and holds a string of
        at most 63. */
    ghost predicate Own()
      reads this, own
    {
      forall a | a in own :: Sized(a)
    }

    static ghost predicate Sized(a: array<char>)
      reads a
    {
      a.Length == 64 && |CString(a[..])| <= 63
    }

    /** The free part of the last chunk is the shell's own: while `left > 0`, `buffer`
        is the last chunk and holds `63 - left` characters and a NUL. */
    ghost predicate Tail()
      reads this, own, output, if output == null then [] else output.list
    {
      && Own()
      && (left > 0 && output != null ==>
        && output.list != [] && buffer == output.list[|output.list| - 1]
        && buffer !in output.list[..|output.list| - 1]
        && buffer.Length == BUFFER_SIZE && left < BUFFER_SIZE
        && NUL !in buffer[..BUFFER_SIZE - 1 - left] && buffer[BUFFER_SIZE - 1 - left] == NUL)
    }

    /** What has come to the list since are chunks of the shell's own. */
    ghost predicate Grown(list: seq<array<char>>, before: set<array<char>>)
      requires output != null
      reads this, output
    {
      list <= output.list && before <= own && forall k | |list| <= k < |output.list| :: output.list[k] in own
    }

    ghost predicate Valid()
      reads this, own, output, if output == null then [] else output.list
    {
      && Tail()
      && (output != null ==> !output.freed && output.refcount >= 1)
    }

    ghost function Text(): string
      reads this, output, if output == null then [] else output.list
    {
      if output == null then "" else TextOf(output.list)
    }

    /** The chunk that a write fills up. */
    ghost function Open(): set<object>
      reads this
    {
      if left > 0 && buffer != null then {buffer} else {}
    }

    /** It is the one that was filled up before, or new. */
    twostate predicate Moved()
      reads this
    {
      Open() <= old(Open()) || fresh(Open())
    }

    constructor (prints: bool)
      ensures Valid() && this.prints == prints
      ensures output != null && fresh(output) && Text() == "" && left == 0 && own == {}
    {
      this.prints := prints;
      left, buffer, own := 0, null, {};
      output := new LogBuffers();
      new;
      output.refcount := 1;
    }

    /** Copies the text into the chunks, 63 characters to each. */
    method Write(buf: string) returns (done: nat)
      requires Valid() && NUL !in buf
      modifies this`left, this`buffer, this`own, output, Open()
      ensures Valid()
      ensures output != null ==> output.refcount == old(output.refcount)
      ensures done == if output == null then 0 else |buf|
      ensures output != null ==> Text() == old(Text()) + buf
      ensures output != null ==> Grown(old(output.list), old(own))
      ensures Moved()
    {
      if output == null {
        return 0;
      }
      WriteAll(buf);
      done := |buf|;
    }

    method WriteAll(buf: string)
      requires Tail() && NUL !in buf && output != null
      modifies this`left, this`buffer, this`own, output`list, Open()
      ensures Tail() && Text() == old(Text()) + buf
      ensures Grown(old(output.list), old(own))
      ensures Moved()
    {
      var rest := buf;
      ghost var all := Text() + buf;
      while |rest| > 0
        invariant Tail() && NUL !in rest
        invariant Text() + rest == all
        invariant Grown(old(output.list), old(own))
        invariant Moved()
      {
        rest := Put(rest);
      }
    }

    /** One round of the loop: a new chunk if there is no room left, then as much as
        fits. */
    method Put(rest: string) returns (more: string)
      requires Tail() && output != null && rest != "" && NUL !in rest
      modifies this`left, this`buffer, this`own, output`list, Open()
      ensures |more| < |rest| && NUL !in more
      ensures Tail() && Text() + more == old(Text()) + rest
      ensures Grown(old(output.list), old(own))
      ensures Moved()
    {
      if left == 0 {
        NewChunk();
      } else {
        CStringIs(buffer[..], BUFFER_SIZE - 1 - left);
      }
      more := FillUp(rest);
    }

    /** As much as fits into the last chunk. */
    method FillUp(rest: string) returns (more: string)
      requires Ready() && rest != "" && NUL !in rest
      modifies this`left, this`own, buffer
      ensures own == old(own) + {buffer} && |more| < |rest| && NUL !in more
      ensures Tail() && Text() + more == old(Written()) + rest
    {
      ghost var before := Written();
      var n := if |rest| > left then left else |rest|;
      Fill(rest[..n]);
      more := rest[n..];
      Regroup(before, rest, n);
    }

    /** There is room in the last chunk, whose text is not yet closed by a NUL. */
    ghost predicate Ready()
      reads this, own, output, if output == null then [] else output.list
    {
      && output != null
      && (forall a | a in own && a != buffer :: Sized(a))
      && 0 < left < BUFFER_SIZE && output.list != [] && buffer == output.list[|output.list| - 1]
      && buffer !in output.list[..|output.list| - 1]
      && buffer.Length == BUFFER_SIZE && NUL !in buffer[..BUFFER_SIZE - 1 - left]
    }

    ghost function Written(): string
      requires Ready()
      reads this, own, output, if output == null then [] else output.list
    {
      TextOf(output.list[..|output.list| - 1]) + buffer[..BUFFER_SIZE - 1 - left]
    }

    method NewChunk()
      requires Tail() && output != null && left == 0
      modifies this`left, this`buffer, output`list
      ensures Ready() && fresh(buffer) && Written() == old(Text()) && output.list == old(output.list) + [buffer]
    {
      ghost var was := output.list;
      buffer, left := new char[BUFFER_SIZE], BUFFER_SIZE - 1;
      output.Append(buffer);
      assert output.list[..|output.list| - 1] == was;
      TextKept(was);
    }

    /** `memcpy` into the last chunk, and the NUL after it. */
    method Fill(s: string)
      requires Ready() && 0 < |s| <= left && NUL !in s
      modifies this`left, this`own, buffer
      ensures own == old(own) + {buffer}
      ensures Tail() && Text() == old(Written()) + s
      ensures left < BUFFER_SIZE && |CString(buffer[..])| == BUFFER_SIZE - 1 - left
    {
      var at := BUFFER_SIZE - 1 - left;
      CopyTo(buffer, at, s);
      left, own := left - |s|, own + {buffer};
      TextKept(output.list[..|output.list| - 1]);
    }

    /** Takes a message over if nobody else holds it, or copies it; then gives it up. */
    method Log(message: LogBuffers)
      requires Valid() && message != output
      requires message.refcount >= 1 && !message.freed
      requires output != null ==> Apart(message.list, output.list)
      modifies this`left, this`buffer, this`own, this`output, output, message, Open()
      ensures Valid()
      ensures output == (if old(output) != null && old(message.Last() && output.list == []) then message else old(output))
      ensures output == message ==> !message.freed && old(output).refcount == old(output.refcount) - 1
      ensures output != message ==> message.refcount == old(message.refcount) - 1 && (message.freed <==> message.refcount == 0)
      ensures output != null ==> Text() == old(Text()) + old(TextOf(message.list))
    {
      if output == null {
        message.Release();
        return;
      }
      if message.Last() && output.list == [] {
        TakeOver(message);
      } else {
        TakeAndRelease(message);
      }
    }

    /** The message's text is taken, and one reference to it given up. */
    method TakeAndRelease(message: LogBuffers)
      requires Valid() && output != null && message != output && Apart(message.list, output.list)
      requires message.refcount >= 1 && !message.freed
      modifies this`left, this`buffer, this`own, output`list, message, Open()
      ensures Valid() && Text() == old(Text()) + old(TextOf(message.list))
      ensures message.refcount == old(message.refcount) - 1 && (message.freed <==> message.refcount == 0)
    {
      Take(message);
      message.Release();
    }

    /** The message becomes the list. */
    method TakeOver(message: LogBuffers)
      requires Valid() && output != null && message != output && output.list == []
      requires message.refcount >= 1 && !message.freed
      modifies this`output, output
      ensures Valid() && output == message && Text() == TextOf(message.list)
      ensures old(output).refcount == old(output.refcount) - 1
    {
      output.Release();
      output := message;
    }

    /** Moves or copies a message's text to the end of the list. */
    method Take(message: LogBuffers)
      requires Tail() && output != null && message != output && Apart(message.list, output.list)
      modifies this`left, this`buffer, this`own, output`list, message`list, Open()
      ensures Tail() && Text() == old(Text()) + old(TextOf(message.list))
    {
      if message.Last() {
        Splice(message);
      } else {
        CopyAll(message.list);
      }
    }

    /** Moves the chunks of a message to the end of the list; the next write starts a
        chunk of its own. */
    method Splice(message: LogBuffers)
      requires Tail() && output != null && message != output
      requires Apart(message.list, output.list)
      modifies this`left, output`list, message`list
      ensures Tail() && left == 0 && Text() == old(Text()) + old(TextOf(message.list)) && message.list == []
    {
      TextJoin(output.list, message.list);
      output.list, message.list := output.list + message.list, [];
      left := 0;
    }

    /** Writes the chunks of a message that others hold too. */
    method CopyAll(chunks: seq<array<char>>)
      requires Tail() && output != null
      requires Apart(chunks, output.list)
      modifies this`left, this`buffer, this`own, output`list, Open()
      ensures Tail() && Text() == old(Text()) + old(TextOf(chunks))
    {
      ghost var contents := seq(|chunks|, i requires 0 <= i < |chunks| reads chunks => chunks[i][..]);
      TextIsJoined(chunks, contents);
      CopyChunks(chunks, contents, Text());
      assert contents[..|contents|] == contents;
    }

    method CopyChunks(chunks: seq<array<char>>, ghost contents: seq<seq<char>>, ghost before: string)
      requires Copying(chunks, contents, 0, before)
      modifies this`left, this`buffer, this`own, output`list, Open()
      ensures Copied(contents, |contents|, before)
    {
      var i := 0;
      while i < |chunks|
        invariant i <= |chunks| && Copying(chunks, contents, i, before)
        invariant Moved()
      {
        CopyNext(chunks, i, contents, before);
        i := i + 1;
      }
    }

    ghost predicate Copied(contents: seq<seq<char>>, i: nat, before: string)
      reads this, own, output, if output == null then [] else output.list
    {
      i <= |contents| && Tail() && output != null && Text() == before + JoinOf(contents[..i])
    }

    ghost predicate Copying(chunks: seq<array<char>>, contents: seq<seq<char>>, i: nat, before: string)
      reads this, own, chunks, output, if output == null then [] else output.list
    {
      Beside(chunks, contents) && Copied(contents, i, before)
    }

    /** None of the chunks is the one being filled. */
    ghost predicate Beside(chunks: seq<array<char>>, contents: seq<seq<char>>)
      reads this, chunks
    {
      Hold(chunks, contents) && forall i | 0 <= i < |chunks| :: chunks[i] !in Open()
    }

    method CopyNext(chunks: seq<array<char>>, i: nat, ghost contents: seq<seq<char>>, ghost before: string)
      requires i < |chunks| && Copying(chunks, contents, i, before)
      modifies this`left, this`buffer, this`own, output`list, Open()
      ensures Copying(chunks, contents, i + 1, before)
      ensures Moved()
    {
      var s := ReadString(chunks[i]);
      OneMoreJoined(contents, i, before);
      WriteBeside(s, chunks, contents);
    }

    /** Writing leaves the chunks of a message alone. */
    method WriteBeside(s: string, ghost chunks: seq<array<char>>, ghost contents: seq<seq<char>>)
      requires Tail() && NUL !in s && output != null && Beside(chunks, contents)
      modifies this`left, this`buffer, this`own, output`list, Open()
      ensures Tail() && Text() == old(Text()) + s && Beside(chunks, contents)
      ensures Moved()
    {
      WriteAll(s);
    }

    /** Joins the text, with a final newline when printing, and gives the list up. */
    method Dump() returns (buf: string)
      requires Valid()
      modifies this`output, output
      ensures Valid() && output == null
      ensures buf == if old(output) == null then "" else old(Text()) + if prints then "\n" else ""
      ensures old(output) != null ==> old(output).refcount == old(output.refcount) - 1
    {
      buf := "";
      if output == null {
        return;
      }
      buf := Join(output.list);
      if prints {
        buf := buf + "\n";
      }
      output.Release();
      output := null;
    }

    /** The same into a buffer from the heap, which is exactly as long as the text and
        a NUL; the NUL is written unless there is nothing at all to copy. */
    method DumpToHeap() returns (buf: array?<char>)
      requires Valid()
      modifies this`output, output
      ensures Valid() && output == null
      ensures old(output) == null <==> buf == null
      ensures buf != null ==>
        var text := old(Text()) + if prints then "\n" else "";
        && fresh(buf) && buf.Length == |text| + 1
        && buf[..|text|] == text
        && (prints || old(output.list) != [] ==> buf[|text|] == NUL)
    {
      if output == null {
        return null;
      }
      buf := JoinToHeap(output.list, prints);
      output.Release();
      output := null;
    }

    /** Without an argument: starts a new list, unless the one at hand is empty. */
    method ResetBuffer()
      requires Valid()
      modifies this`left, this`buffer, this`output, output
      ensures Valid() && output != null && left == 0 && Text() == ""
    {
      if output != null {
        if output.list == [] {
          return;
        }
        output.Release();
      }
      output := new LogBuffers();
      output.refcount := 1;
      left, buffer := 0, null;
    }

    /** With a list: writing goes on into it. The room counted for the old list's last
        chunk is kept, so the shell is in order afterwards exactly if there was none. */
    method SetBuffer(list: LogBuffers)
      requires Valid() && list != output
      requires !list.freed && list.refcount >= 1 && buffer !in list.list
      modifies this`output, output
      ensures output == list && Text() == TextOf(list.list) && left == old(left)
      ensures Valid() <==> left == 0
    {
      if output != null {
        output.Release();
      }
      output := list;
    }
  }

  /** `append` of each chunk in turn. */
  method Join(list: seq<array<char>>) returns (buf: string)
    ensures buf == TextOf(list)
  {
    buf := "";
    var i := 0;
    while i < |list|
      invariant i <= |list| && buf == TextOf(list[..i])
    {
      var text := ReadString(list[i]);
      assert list[..i + 1][..i] == list[..i];
      buf := buf + text;
      i := i + 1;
    }
    assert list[..i] == list;
  }

  /** `stpcpy` of each chunk in turn. */
  method JoinTo(list: seq<array<char>>, buf: array<char>) returns (p: nat)
    requires buf !in list && |TextOf(list)| < buf.Length
    modifies buf
    ensures p == |TextOf(list)| && buf[..p] == TextOf(list)
    ensures list != [] ==> buf[p] == NUL
  {
    p := 0;
    var i := 0;
    ghost var size := |TextOf(list)|;
    while i < |list|
      invariant Joining(list, i, buf, p) && |TextOf(list)| == size
      invariant i > 0 ==> buf[p] == NUL
    {
      p := JoinNext(list, i, buf, p);
      i := i + 1;
    }
    assert list[..i] == list;
  }

  /** A buffer of the size of the text, filled with it. */
  method JoinToHeap(list: seq<array<char>>, newline: bool) returns (buf: array<char>)
    ensures fresh(buf)
    ensures var text := old(TextOf(list)) + if newline then "\n" else "";
      && buf.Length == |text| + 1 && buf[..|text|] == text
      && (newline || list != [] ==> buf[|text|] == NUL)
  {
    var total := Length(list);
    if newline {
      total := total + 1;
    }
    buf := new char[total + 1];
    TextKept(list);
    var p := JoinTo(list, buf);
    if newline {
      buf[p] := '\n';
      buf[p + 1] := NUL;
    }
  }

  ghost predicate Joining(list: seq<array<char>>, i: nat, buf: array<char>, p: nat)
    reads list, buf
  {
    && i <= |list| && p == |TextOf(list[..i])|
    && |TextOf(list)| < buf.Length && p < buf.Length
    && buf[..p] == TextOf(list[..i])
  }

  lemma TextUpTo(list: seq<array<char>>, i: nat)
    requires i < |list|
    ensures TextOf(list[..i + 1]) == TextOf(list[..i]) + CString(list[i][..])
    ensures |TextOf(list[..i + 1])| <= |TextOf(list)|
  {
    assert list[..i + 1][..i] == list[..i];
    TextJoin(list[..i + 1], list[i + 1..]);
    assert list[..i + 1] + list[i + 1..] == list;
  }

  method JoinNext(list: seq<array<char>>, i: nat, buf: array<char>, p: nat) returns (q: nat)
    requires Joining(list, i, buf, p) && i < |list| && buf !in list
    modifies buf
    ensures |TextOf(list)| == old(|TextOf(list)|)
    ensures Joining(list, i + 1, buf, q) && buf[q] == NUL
  {
    TextUpTo(list, i);
    var s := ReadString(list[i]);
    CopyTo(buf, p, s);
    TextKept(list[..i + 1]);
    q := p + |s|;
  }

  /** The sum of `strlen` over the chunks. */
  method Length(list: seq<array<char>>) returns (total: nat)
    ensures total == |TextOf(list)|
  {
    total := 0;
    var i := 0;
    while i < |list|
      invariant i <= |list| && total == |TextOf(list[..i])|
    {
      var text := ReadString(list[i]);
      assert list[..i + 1][..i] == list[..i];
      total := total + |text|;
      i := i + 1;
    }
    assert list[..i] == list;
  }

  /** `strlen` and what precedes it. */
  method ReadString(a: array<char>) returns (s: string)
    ensures s == CString(a[..])
  {
    s := "";
    var i := 0;
    while i < a.Length && a[i] != NUL
      invariant i <= a.Length && s == a[..i] && NUL !in s
    {
      s := s + [a[i]];
      i := i + 1;
    }
    if i < a.Length {
      CStringIs(a[..], i);
    } else {
      assert a[..] == s;
    }
  }

  /** `memcpy` to a place in a buffer, and a NUL after it. */
  method CopyTo(a: array<char>, at: nat, s: string)
    requires at + |s| < a.Length && NUL !in a[..at] && NUL !in s
    modifies a
    ensures a[..at + |s|] == old(a[..at]) + s && a[at + |s|] == NUL
    ensures CString(a[..]) == old(a[..at]) + s && NUL !in a[..at + |s|]
  {
    ghost var head := a[..at];
    forall i | 0 <= i < |s| {
      a[at + i] := s[i];
    }
    a[at + |s|] := NUL;
    assert a[..at + |s|] == head + s;
    CStringIs(a[..], at + |s|);
  }
}
