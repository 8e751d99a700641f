/**
 The text format of a config file: a line for each instance, with a TAB between key
 and value.
 */
module ConfigFile {
  import opened CStrings

  type Entries = map<string, string>

  const OVMS_MAXVALSIZE: nat := 2500

  // ----------------------------------------------------------------- writing

  /** `"%s\t%s\n"`. */
  function Line(key: string, value: string): string {
    CString(key) + "\t" + CString(value) + "\n"
  }

  /** `RewriteConfig`, going through the keys in some order. */
  function Rewritten(m: Entries, order: seq<string>): string
    requires forall k | k in order :: k in m
  {
    if order == [] then ""
    else
      assert forall k | k in order[1..] :: k in order;
      Line(order[0], m[order[0]]) + Rewritten(m, order[1..])
  }

  // ----------------------------------------------------------------- reading

  /** The place of the first `c`, or the length. */
  function IndexOf(s: string, c: char): (i: nat)
    ensures i <= |s| && (i < |s| ==> s[i] == c) && c !in s[..i]
  {
    if s == "" || s[0] == c then 0 else 1 + IndexOf(s[1..], c)
  }

  /** How much `fgets` reads: to the end of the line, or as much as the buffer holds. */
  function Fgets(f: string): (n: nat)
    requires f != ""
    ensures 0 < n <= |f| && n < OVMS_MAXVALSIZE
    ensures '\n' !in f[..n - 1]
  {
    var line := IndexOf(f, '\n');
    var n := if line < |f| then line + 1 else |f|;
    if n > OVMS_MAXVALSIZE - 1 then OVMS_MAXVALSIZE - 1 else n
  }

  /** The string in the buffer without its last character; of a line that starts with a
      NUL nothing is left. */
  function LineOf(chunk: string): (line: string)
    ensures |line| <= |chunk| && NUL !in line
    ensures chunk != "" ==> line <= chunk[..|chunk| - 1]
  {
    var text := CString(chunk);
    if text == "" then "" else text[..|text| - 1]
  }

  /** A line split at the first TAB, or at the first space
      if there is none; a line with neither is passed over. */
  function Read(m: Entries, line: string): Entries {
    var tab := IndexOf(line, '\t');
    var p := if tab < |line| then tab else IndexOf(line, ' ');
    if p < |line| then m[line[..p] := line[p + 1..]] else m
  }

  /** `LoadConfig`. */
  function Loaded(m: Entries, f: string): Entries
    decreases |f|
  {
    if f == "" then m
    else var n := Fgets(f); Loaded(Read(m, LineOf(f[..n])), f[n..])
  }

  // ------------------------------------------------------------- round trips

  /** What the format can hold: keys without TAB, newline and NUL, values without
      newline and NUL, lines of at most 2499 bytes. */
  ghost predicate Fits(key: string, value: string) {
    && '\t' !in key && '\n' !in key && NUL !in key
    && '\n' !in value && NUL !in value
    && |key| + 1 + |value| + 1 <= OVMS_MAXVALSIZE - 1
  }

  ghost predicate AllFit(m: Entries) {
    forall k | k in m :: Fits(k, m[k])
  }

  ghost predicate Lists(order: seq<string>, m: Entries) {
    && (forall k | k in order :: k in m)
    && (forall k | k in m :: k in order)
    && (forall i, j | 0 <= i < j < |order| :: order[i] != order[j])
  }

  lemma WholeCString(s: string)
    requires NUL !in s
    ensures CString(s) == s
  {
  }

  lemma {:induction false} IndexIs(s: string, c: char, i: nat)
    requires i < |s| && s[i] == c && c !in s[..i]
    ensures IndexOf(s, c) == i
  {
    if i > 0 {
      assert s[0] in s[..i];
      assert s[1..][..i - 1] == s[..i][1..];
      IndexIs(s[1..], c, i - 1);
    }
  }

  lemma {:induction false} IndexAfter(s: string, c: char, k: nat)
    requires k <= |s| && forall i | 0 <= i < k :: s[i] != c
    ensures IndexOf(s, c) >= k
  {
    if k > 0 { IndexAfter(s[1..], c, k - 1); }
  }

  lemma FgetsLine(body: string, rest: string)
    requires '\n' !in body && |body| + 1 <= OVMS_MAXVALSIZE - 1
    ensures Fgets(body + "\n" + rest) == |body| + 1
  {
    var f := body + "\n" + rest;
    assert f[..|body|] == body && f[|body|] == '\n';
    IndexIs(f, '\n', |body|);
  }

  lemma ReadEntry(m: Entries, key: string, value: string)
    requires '\t' !in key
    ensures Read(m, key + "\t" + value) == m[key := value]
  {
    var line := key + "\t" + value;
    assert line[..|key|] == key && line[|key|] == '\t' && line[|key| + 1..] == value;
    IndexIs(line, '\t', |key|);
  }

  lemma FirstLine(m: Entries, body: string, rest: string)
    requires '\n' !in body && NUL !in body && |body| + 1 <= OVMS_MAXVALSIZE - 1
    ensures Loaded(m, body + "\n" + rest) == Loaded(Read(m, body), rest)
  {
    var f := body + "\n" + rest;
    FgetsLine(body, rest);
    assert f[..|body| + 1] == body + "\n" && f[|body| + 1..] == rest;
    WholeCString(body + "\n");
  }

  lemma FittingLine(key: string, value: string)
    requires Fits(key, value)
    ensures Line(key, value) == key + "\t" + value + "\n"
  {
    WholeCString(key);
    WholeCString(value);
  }

  /** A line that fits is read back as its entry. */
  lemma LineIsRead(m: Entries, key: string, value: string, rest: string)
    requires Fits(key, value)
    ensures Loaded(m, Line(key, value) + rest) == Loaded(m[key := value], rest)
  {
    FittingLine(key, value);
    FirstLine(m, key + "\t" + value, rest);
    ReadEntry(m, key, value);
  }

  ghost function Listed(m: Entries, order: seq<string>): Entries {
    map k | k in order && k in m :: m[k]
  }

  lemma ListedFirst(m: Entries, acc: Entries, order: seq<string>)
    requires order != [] && order[0] in m
    ensures acc[order[0] := m[order[0]]] + Listed(m, order[1..]) == acc + Listed(m, order)
  {
    assert order == [order[0]] + order[1..];
  }

  lemma {:induction false} LinesAreRead(m: Entries, acc: Entries, order: seq<string>)
    requires AllFit(m) && forall k | k in order :: k in m
    ensures Loaded(acc, Rewritten(m, order)) == acc + Listed(m, order)
    decreases |order|
  {
    if order == [] {
      assert acc + Listed(m, order) == acc;
    } else {
      var k := order[0];
      assert k in order && forall x | x in order[1..] :: x in order;
      LineIsRead(acc, k, m[k], Rewritten(m, order[1..]));
      LinesAreRead(m, acc[k := m[k]], order[1..]);
      ListedFirst(m, acc, order);
    }
  }

  lemma ReadFits(m: Entries, line: string)
    requires AllFit(m) && '\n' !in line && NUL !in line && |line| <= OVMS_MAXVALSIZE - 2
    ensures AllFit(Read(m, line))
  {
    var tab := IndexOf(line, '\t');
    var p := if tab < |line| then tab else IndexOf(line, ' ');
    if p < |line| {
      var (key, value) := (line[..p], line[p + 1..]);
      assert forall c | c in key :: c in line;
      assert forall c | c in value :: c in line;
      assert '\t' !in key by { if tab == |line| { assert line[..tab] == line; } }
      assert Fits(key, value);
    }
  }

  lemma SplitAtSpace(m: Entries, key: string, value: string)
    requires ' ' !in key && '\t' !in key && '\t' !in value
    ensures Read(m, key + " " + value) == m[key := value]
  {
    var line := key + " " + value;
    assert line[..|key|] == key && line[|key|] == ' ' && line[|key| + 1..] == value;
    IndexIs(line, ' ', |key|);
    IndexAfter(line, '\t', |line|);
  }

  /** A line without a TAB is split at its first space. */
  lemma SpaceLineIsRead(m: Entries, key: string, value: string, rest: string)
    requires ' ' !in key && '\t' !in key && '\n' !in key && NUL !in key
    requires '\t' !in value && '\n' !in value && NUL !in value
    requires |key| + 1 + |value| + 1 <= OVMS_MAXVALSIZE - 1
    ensures Loaded(m, key + " " + value + "\n" + rest) == Loaded(m[key := value], rest)
  {
    FirstLine(m, key + " " + value, rest);
    SplitAtSpace(m, key, value);
  }

  /** A line with a TAB is split at its first TAB, wherever its spaces are. */
  lemma TabLineIsRead(m: Entries, key: string, value: string, rest: string)
    requires '\t' !in key && '\n' !in key && NUL !in key && '\n' !in value && NUL !in value
    requires |key| + 1 + |value| + 1 <= OVMS_MAXVALSIZE - 1
    ensures Loaded(m, key + "\t" + value + "\n" + rest) == Loaded(m[key := value], rest)
  {
    FirstLine(m, key + "\t" + value, rest);
    ReadEntry(m, key, value);
  }

  /** A line with neither is passed over. */
  lemma OtherLineIsIgnored(m: Entries, body: string, rest: string)
    requires ' ' !in body && '\t' !in body && '\n' !in body && NUL !in body && |body| + 1 <= OVMS_MAXVALSIZE - 1
    ensures Loaded(m, body + "\n" + rest) == Loaded(m, rest)
  {
    FirstLine(m, body, rest);
    IndexAfter(body, '\t', |body|);
    IndexAfter(body, ' ', |body|);
  }

  lemma FgetsPart(part: string, rest: string)
    requires |part| == OVMS_MAXVALSIZE - 1 && '\n' !in part
    ensures Fgets(part + rest) == |part|
  {
    forall i | 0 <= i < |part| ensures (part + rest)[i] != '\n' { assert (part + rest)[i] == part[i]; }
    IndexAfter(part + rest, '\n', |part|);
  }

  /** A longer line is read in parts of 2499 bytes, each without its last one. */
  lemma LongLineIsCut(m: Entries, part: string, rest: string)
    requires |part| == 2499 && '\n' !in part && NUL !in part
    ensures Loaded(m, part + rest) == Loaded(Read(m, part[..|part| - 1]), rest)
  {
    FgetsPart(part, rest);
    assert (part + rest)[..|part|] == part && (part + rest)[|part|..] == rest;
    WholeCString(part);
  }

  /** The last line of a file that does not end with a newline loses its last byte. */
  lemma UnfinishedLineIsCut(m: Entries, body: string)
    requires body != "" && '\n' !in body && NUL !in body && |body| <= OVMS_MAXVALSIZE - 1
    ensures Loaded(m, body) == Read(m, body[..|body| - 1])
  {
    IndexAfter(body, '\n', |body|);
    assert body[..|body|] == body && body[|body|..] == "";
    WholeCString(body);
  }

  /** Whatever is read from a file, fits the format. */
  lemma {:induction false} LoadedFits(m: Entries, f: string)
    requires AllFit(m)
    ensures AllFit(Loaded(m, f))
    decreases |f|
  {
    if f != "" {
      var n := Fgets(f);
      var line := LineOf(f[..n]);
      assert f[..n][..n - 1] == f[..n - 1];
      assert forall c | c in line :: c in f[..n - 1];
      ReadFits(m, line);
      LoadedFits(Read(m, line), f[n..]);
    }
  }

  /** A map written to a file is read back the same, whatever the order of its keys,
      exactly when every entry fits the format. */
  lemma RoundTripIff(m: Entries, order: seq<string>)
    requires Lists(order, m)
    ensures Loaded(map[], Rewritten(m, order)) == m <==> AllFit(m)
  {
    LoadedFits(map[], Rewritten(m, order));
    if AllFit(m) {
      LinesAreRead(m, map[], order);
      assert Listed(m, order) == m;
    }
  }

  /** Any file at all is brought into a form that reads the same, by being read and
      rewritten. */
  lemma RewritingKeepsContents(f: string, order: seq<string>)
    requires Lists(order, Loaded(map[], f))
    ensures Loaded(map[], Rewritten(Loaded(map[], f), order)) == Loaded(map[], f)
  {
    LoadedFits(map[], f);
    RoundTripIff(Loaded(map[], f), order);
  }

  // ------------------------------------------------------------- the program

  /** `RewriteConfig`: the contents of the file, a line for each entry. */
  method RewriteConfig(instances: Entries) returns (file: string)
    ensures exists order :: Lists(order, instances) && file == Rewritten(instances, order)
  {
    file := "";
    ghost var order: seq<string> := [];
    var rest := instances.Keys;
    while rest != {}
      invariant rest <= instances.Keys
      invariant forall k | k in order :: k in instances && k !in rest
      invariant forall k | k in instances && k !in rest :: k in order
      invariant forall i, j | 0 <= i < j < |order| :: order[i] != order[j]
      invariant file == Rewritten(instances, order)
      decreases rest
    {
      var key :| key in rest;
      RewrittenAppend(instances, order, key);
      file := file + Line(key, instances[key]);
      order := order + [key];
      rest := rest - {key};
    }
    assert Lists(order, instances);
  }

  lemma Associative(a: string, b: string, c: string)
    ensures a + (b + c) == a + b + c
  {
  }

  lemma {:induction false} RewrittenAppend(m: Entries, order: seq<string>, key: string)
    requires (forall k | k in order :: k in m) && key in m
    ensures Rewritten(m, order + [key]) == Rewritten(m, order) + Line(key, m[key])
  {
    if order == [] {
      assert Rewritten(m, [key]) == Line(key, m[key]) + Rewritten(m, []);
    } else {
      assert forall k | k in order[1..] :: k in order;
      RewrittenAppend(m, order[1..], key);
      assert (order + [key])[1..] == order[1..] + [key];
      Associative(Line(order[0], m[order[0]]), Rewritten(m, order[1..]), Line(key, m[key]));
    }
  }

  /** `LoadConfig`: the instances in a file. */
  method LoadConfig(file: string) returns (instances: Entries)
    ensures instances == Loaded(map[], file)
  {
    instances := map[];
    var f := file;
    while f != ""
      invariant Loaded(map[], file) == Loaded(instances, f)
      decreases |f|
    {
      var n := Fgets(f);
      instances := ReadInstance(instances, LineOf(f[..n]));
      f := f[n..];
    }
  }

  method ReadInstance(instances: Entries, buf: string) returns (more: Entries)
    ensures more == Read(instances, buf)
  {
    more := instances;
    var p := IndexOf(buf, '\t');
    if p == |buf| {
      p := IndexOf(buf, ' ');
    }
    if p < |buf| {
      more := more[buf[..p] := buf[p + 1..]];
    }
  }

  /** Written and read again. */
  method SaveAndLoad(instances: Entries) returns (again: Entries)
    ensures again == instances <==> AllFit(instances)
  {
    var file := RewriteConfig(instances);
    ghost var order :| Lists(order, instances) && file == Rewritten(instances, order);
    RoundTripIff(instances, order);
    again := LoadConfig(file);
  }
}
