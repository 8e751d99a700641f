/**
 Full names of commands: the names on the path from the root, joined with spaces,
 and taken apart at spaces again.
 */
module CommandNames {
  /** The place of the first space, or the length. */
  function Space(s: string): (d: nat)
    ensures d <= |s| && (d < |s| ==> s[d] == ' ') && ' ' !in s[..d]
  {
    if s == "" || s[0] == ' ' then 0 else 1 + Space(s[1..])
  }

  /** `GetFullName`, from the names on the path below the root. */
  function Join(path: seq<string>): string {
    if path == [] then ""
    else
      var res := Join(path[..|path| - 1]);
      (if res != "" then res + " " else res) + path[|path| - 1]
  }

  /** The parts of a string between its spaces. */
  function Segments(s: string): (r: seq<string>)
    ensures r != []
    decreases |s|
  {
    var d := Space(s);
    if d < |s| then [s[..d]] + Segments(s[d + 1..]) else [s]
  }

  /** The names `FindCommandFullName` looks up one after the other: it stops at the end
      of the string. */
  function Split(s: string): seq<string>
    decreases |s|
  {
    if s == "" then []
    else
      var d := Space(s);
      if d < |s| then [s[..d]] + Split(s[d + 1..]) else [s]
  }

  predicate NoSpaces(path: seq<string>) {
    forall i | 0 <= i < |path| :: ' ' !in path[i]
  }

  /** Names that full names can be made of: without spaces, and neither the first nor
      the last one empty. */
  predicate Proper(path: seq<string>) {
    && NoSpaces(path)
    && (path != [] ==> path[0] != "" && path[|path| - 1] != "")
  }

  lemma {:induction false} SpaceIs(s: string, d: nat)
    requires d <= |s| && ' ' !in s[..d] && (d < |s| ==> s[d] == ' ')
    ensures Space(s) == d
  {
    if d > 0 {
      assert s[0] in s[..d];
      assert s[1..][..d - 1] == s[..d][1..];
      SpaceIs(s[1..], d - 1);
    }
  }

  lemma {:induction false} SplitIsSegments(s: string)
    ensures var r := Segments(s); Split(s) == if r[|r| - 1] == "" then r[..|r| - 1] else r
    decreases |s|
  {
    var d := Space(s);
    if d < |s| { SplitIsSegments(s[d + 1..]); }
  }

  lemma NameSegment(name: string)
    requires ' ' !in name
    ensures Segments(name) == [name]
  {
    assert name[..|name|] == name;
    SpaceIs(name, |name|);
  }

  lemma FirstSegment(s: string, d: nat)
    requires d < |s| && s[d] == ' ' && ' ' !in s[..d]
    ensures Segments(s) == [s[..d]] + Segments(s[d + 1..])
  {
    SpaceIs(s, d);
  }

  /** Cutting off a beginning of the first part. */
  lemma CutJoined(s: string, t: string, d: nat)
    requires d <= |s|
    ensures (s + " " + t)[..d] == s[..d]
    ensures d < |s| ==> (s + " " + t)[d] == s[d] && (s + " " + t)[d + 1..] == s[d + 1..] + " " + t
    ensures d == |s| ==> (s + " " + t)[d] == ' ' && (s + " " + t)[d + 1..] == t
  {
  }

  lemma {:induction false} SegmentsAtSpace(s: string, t: string)
    ensures Segments(s + " " + t) == Segments(s) + Segments(t)
    decreases |s|
  {
    var d := Space(s);
    CutJoined(s, t, d);
    FirstSegment(s + " " + t, d);
    if d == |s| {
      NameSegment(s);
      assert s[..d] == s;
    } else {
      FirstSegment(s, d);
      SegmentsAtSpace(s[d + 1..], t);
      Regroup([s[..d]], Segments(s[d + 1..]), Segments(t));
    }
  }

  lemma Regroup(a: seq<string>, b: seq<string>, c: seq<string>)
    ensures (a + b) + c == a + (b + c)
  {
  }

  lemma {:induction false} SplitHasNoSpaces(s: string)
    ensures NoSpaces(Split(s))
    decreases |s|
  {
    if s != "" {
      var d := Space(s);
      if d < |s| {
        SplitHasNoSpaces(s[d + 1..]);
      } else {
        assert s[..d] == s;
      }
    }
  }

  /** Joined names come apart again, if the first is not empty. */
  lemma {:induction false} JoinSegments(path: seq<string>)
    requires NoSpaces(path) && path != [] && path[0] != ""
    ensures Join(path) != "" && Segments(Join(path)) == path
  {
    var (init, last) := (path[..|path| - 1], path[|path| - 1]);
    NameSegment(last);
    if init != [] {
      JoinSegments(init);
      SegmentsAtSpace(Join(init), last);
      assert path == init + [last];
    } else {
      assert "" + last == last && path == [last];
    }
  }

  /** An empty first name leaves no trace. */
  lemma {:induction false} EmptyFirst(path: seq<string>)
    requires path != [] && path[0] == ""
    ensures Join(path) == Join(path[1..])
  {
    if |path| > 1 {
      EmptyFirst(path[..|path| - 1]);
      assert path[..|path| - 1][1..] == path[1..][..|path| - 2];
    }
  }

  lemma {:induction false} FewSegments(path: seq<string>)
    requires NoSpaces(path)
    ensures |Segments(Join(path))| <= if path == [] then 1 else |path|
    decreases |path|
  {
    if path == [] {
    } else if path[0] == "" {
      EmptyFirst(path);
      FewSegments(path[1..]);
    } else {
      JoinSegments(path);
    }
  }

  /** A full name is taken apart into the names it was made of, exactly when these are
      without spaces and neither the first nor the last is empty. */
  lemma FullNameIff(path: seq<string>)
    ensures Split(Join(path)) == path <==> Proper(path)
  {
    SplitHasNoSpaces(Join(path));
    SplitIsSegments(Join(path));
    if path != [] && NoSpaces(path) {
      if path[0] == "" {
        EmptyFirst(path);
        FewSegments(path[1..]);
        if |path| == 1 { assert Join(path) == ""; }
      } else {
        JoinSegments(path);
      }
    }
  }
}
