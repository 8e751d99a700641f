/**
 Wildcard matching: the loop with a recursive call at each star, against the
 relation it stands for.
 */
module GlobMatch {
  import opened Common

  // ------------------------------------------------------------- the relation

  /** `*`, `?`, or a character that stands for itself. */
  datatype Term = Star | AnyOne | Lit(c: char)

  predicate Fits(t: Term, piece: string) {
    match t
    case Star => true
    case AnyOne => |piece| == 1
    case Lit(c) => piece == [c]
  }

  function Concat(pieces: seq<string>): string {
    if pieces == [] then "" else pieces[0] + Concat(pieces[1..])
  }

  ghost predicate IsCut(terms: seq<Term>, s: string, pieces: seq<string>) {
    && |pieces| == |terms|
    && Concat(pieces) == s
    && forall i | 0 <= i < |terms| :: Fits(terms[i], pieces[i])
  }

  /** A string matches if it can be cut into pieces, one for each term in order, that
      fit their terms. */
  ghost predicate Matches(terms: seq<Term>, s: string) {
    exists pieces: seq<string> :: IsCut(terms, s, pieces)
  }

  // --------------------------------------------------------------- patterns

  function TermOf(c: char): Term {
    if c == '*' then Star else if c == '?' then AnyOne else Lit(c)
  }

  /** The terms of a pattern as the program reads it: after a backslash, where that
      is special, a star stands for itself but a question mark does not. A pattern
      that ends in a lone backslash has none. */
  function Terms(pat: string, isglob: bool): Option<seq<Term>> {
    if pat == "" then Some([])
    else if !isglob && pat[0] == '\\' then
      if |pat| == 1 then None
      else Prepend(if pat[1] == '?' then AnyOne else Lit(pat[1]), Terms(pat[2..], isglob))
    else Prepend(TermOf(pat[0]), Terms(pat[1..], isglob))
  }

  /** The terms as the program's comment has them: a backslash makes any character
      stand for itself. */
  function DocumentedTerms(pat: string, isglob: bool): Option<seq<Term>> {
    if pat == "" then Some([])
    else if !isglob && pat[0] == '\\' then
      if |pat| == 1 then None else Prepend(Lit(pat[1]), DocumentedTerms(pat[2..], isglob))
    else Prepend(TermOf(pat[0]), DocumentedTerms(pat[1..], isglob))
  }

  function Prepend(t: Term, rest: Option<seq<Term>>): Option<seq<Term>> {
    if rest.Some? then Some([t] + rest.value) else None
  }

  ghost predicate Accepts(terms: Option<seq<Term>>, s: string) {
    terms.Some? && Matches(terms.value, s)
  }

  // ----------------------------------------------------- one term at a time

  lemma CutFirst(t: Term, rest: seq<Term>, s: string, k: nat)
    requires k <= |s| && Fits(t, s[..k]) && Matches(rest, s[k..])
    ensures Matches([t] + rest, s)
  {
    var pieces :| IsCut(rest, s[k..], pieces);
    assert IsCut([t] + rest, s, [s[..k]] + pieces) by {
      assert ([s[..k]] + pieces)[1..] == pieces;
      assert s[..k] + s[k..] == s;
    }
  }

  lemma FirstCut(t: Term, rest: seq<Term>, s: string) returns (k: nat)
    requires Matches([t] + rest, s)
    ensures k <= |s| && Fits(t, s[..k]) && Matches(rest, s[k..])
  {
    var pieces :| IsCut([t] + rest, s, pieces);
    k := |pieces[0]|;
    assert s == pieces[0] + Concat(pieces[1..]);
    assert s[..k] == pieces[0] && s[k..] == Concat(pieces[1..]);
    assert Fits(([t] + rest)[0], pieces[0]);
    assert IsCut(rest, s[k..], pieces[1..]) by {
      forall i | 0 <= i < |rest| ensures Fits(rest[i], pieces[1..][i]) {
        assert rest[i] == ([t] + rest)[i + 1];
      }
    }
  }

  lemma MatchesNothing(s: string)
    ensures Matches([], s) <==> s == ""
  {
    if s == "" { assert IsCut([], s, []); }
    if Matches([], s) {
      var pieces :| IsCut([], s, pieces);
      assert pieces == [];
    }
  }

  lemma MatchesOne(t: Term, rest: seq<Term>, s: string)
    requires t != Star
    ensures Matches([t] + rest, s) <==> s != "" && (t == AnyOne || t == Lit(s[0])) && Matches(rest, s[1..])
  {
    if s != "" && (t == AnyOne || t == Lit(s[0])) && Matches(rest, s[1..]) {
      assert s[..1] == [s[0]];
      CutFirst(t, rest, s, 1);
    }
    if Matches([t] + rest, s) {
      var k := FirstCut(t, rest, s);
      assert |s[..k]| == 1 && s[..k][0] == s[0];
    }
  }

  /** A star takes nothing, or a character and goes on. */
  lemma MatchesStar(rest: seq<Term>, s: string)
    ensures Matches([Star] + rest, s) <==> Matches(rest, s) || (s != "" && Matches([Star] + rest, s[1..]))
  {
    if Matches(rest, s) {
      assert s[0..] == s;
      CutFirst(Star, rest, s, 0);
    }
    if s != "" && Matches([Star] + rest, s[1..]) {
      var k := FirstCut(Star, rest, s[1..]);
      assert s[1..][k..] == s[k + 1..];
      CutFirst(Star, rest, s, k + 1);
    }
    if Matches([Star] + rest, s) {
      var k := FirstCut(Star, rest, s);
      if k == 0 {
        assert s[0..] == s;
      } else {
        assert s[k..] == s[1..][k - 1..];
        CutFirst(Star, rest, s[1..], k - 1);
      }
    }
  }

  lemma StarTakesAll(s: string)
    ensures Matches([Star], s)
  {
    MatchesNothing("");
    assert s[|s|..] == "";
    CutFirst(Star, [], s, |s|);
    assert [Star] == [Star] + [];
  }

  lemma {:induction false} StarsCollapse(rest: seq<Term>, s: string)
    ensures Matches([Star] + ([Star] + rest), s) <==> Matches([Star] + rest, s)
    decreases |s|
  {
    MatchesStar([Star] + rest, s);
    MatchesStar(rest, s);
    if s != "" { StarsCollapse(rest, s[1..]); }
  }

  // ------------------------------------------------------------- the program

  /** `match`: whether the string matches the pattern. */
  method Match(pattern: string, text: string, isglob: bool) returns (matched: bool)
    ensures matched <==> Accepts(Terms(pattern, isglob), text)
    decreases |pattern| + |text|
  {
    var pat, str := pattern, text;
    while |pat| > 0
      invariant |pat| + |str| <= |pattern| + |text|
      invariant Accepts(Terms(pattern, isglob), text) <==> Accepts(Terms(pat, isglob), str)
      decreases |pat| + |str|
    {
      ghost var before := pat;
      ghost var rest := Terms(if !isglob && pat[0] == '\\' && |pat| > 1 then pat[2..] else pat[1..], isglob);
      if !isglob && pat[0] == '\\' {
        if |pat| == 1 {
          return false;
        }
        pat := pat[1..];
      } else if pat[0] == '*' {
        if |pat| == 1 {
          assert Terms(pat, isglob) == Some([Star] + []);
          assert [Star] + [] == [Star];
          StarTakesAll(str);
          return true;
        }
        if pat[1] == '*' {
          if rest.Some? { StarsCollapse(rest.value[1..], str); }
          pat := pat[1..];
          continue;
        }
        if rest.Some? { MatchesStar(rest.value, str); }
        var found := Match(pat[1..], str, isglob);
        if found {
          return true;
        }
        if |str| == 0 {
          return false;
        }
        str := str[1..];
        continue;
      }
      if rest.Some? { MatchesOne(Terms(before, isglob).value[0], rest.value, str); }
      if |str| == 0 {
        return false;
      }
      if pat[0] != '?' && str[0] != pat[0] {
        return false;
      }
      pat := pat[1..];
      str := str[1..];
    }
    MatchesNothing(str);
    matched := |str| == 0 && |pat| == 0;
  }

  /** `glob_match`. */
  method Glob(pat: string, str: string) returns (matched: bool)
    ensures matched <==> Accepts(DocumentedTerms(pat, true), str)
  {
    GlobIsDocumented(pat);
    matched := Match(pat, str, true);
  }

  /** Without escapes the program reads patterns as documented. */
  lemma {:induction false} GlobIsDocumented(pat: string)
    ensures Terms(pat, true) == DocumentedTerms(pat, true)
    ensures Terms(pat, true).Some?
  {
    if pat != "" { GlobIsDocumented(pat[1..]); }
  }

  // --------------------------------------------------------- escaped patterns

  /** A question mark right after an escaping backslash. */
  predicate EscapedQuestion(pat: string) {
    if pat == "" then false
    else if pat[0] == '\\' then |pat| > 1 && (pat[1] == '?' || EscapedQuestion(pat[2..]))
    else EscapedQuestion(pat[1..])
  }

  /** The pattern ends in a backslash that escapes nothing. */
  predicate Dangling(pat: string) {
    if pat == "" then false
    else if pat[0] == '\\' then |pat| == 1 || Dangling(pat[2..])
    else Dangling(pat[1..])
  }

  lemma {:induction false} SomeUnlessDangling(pat: string)
    ensures Terms(pat, false).Some? <==> !Dangling(pat)
    ensures DocumentedTerms(pat, false).Some? <==> !Dangling(pat)
    ensures !EscapedQuestion(pat) ==> Terms(pat, false) == DocumentedTerms(pat, false)
  {
    if pat == "" {
    } else if pat[0] == '\\' {
      if |pat| > 1 { SomeUnlessDangling(pat[2..]); }
    } else {
      SomeUnlessDangling(pat[1..]);
    }
  }

  /** Some string without a question mark that the program's terms match. */
  function Sample(terms: seq<Term>): string {
    if terms == [] then ""
    else
      var rest := Sample(terms[1..]);
      match terms[0]
      case Star => rest
      case AnyOne => "x" + rest
      case Lit(c) => [c] + rest
  }

  lemma {:induction false} SampleMatches(terms: seq<Term>)
    ensures Matches(terms, Sample(terms))
  {
    if terms == [] {
      MatchesNothing("");
    } else {
      SampleMatches(terms[1..]);
      var s := Sample(terms);
      var k := if terms[0] == Star then 0 else 1;
      assert s[k..] == Sample(terms[1..]);
      CutFirst(terms[0], terms[1..], s, k);
      assert terms == [terms[0]] + terms[1..];
    }
  }

  lemma {:induction false} SampleHasNoQuestion(terms: seq<Term>)
    requires Lit('?') !in terms
    ensures '?' !in Sample(terms)
  {
    if terms != [] {
      assert forall t | t in terms[1..] :: t in terms;
      SampleHasNoQuestion(terms[1..]);
      assert terms[0] in terms;
    }
  }

  lemma {:induction false} ProgramHasNoQuestion(pat: string)
    requires Terms(pat, false).Some?
    ensures Lit('?') !in Terms(pat, false).value
  {
    if pat == "" {
    } else if pat[0] == '\\' {
      ProgramHasNoQuestion(pat[2..]);
    } else {
      ProgramHasNoQuestion(pat[1..]);
    }
  }

  lemma {:induction false} DocumentHasQuestion(pat: string)
    requires EscapedQuestion(pat) && DocumentedTerms(pat, false).Some?
    ensures Lit('?') in DocumentedTerms(pat, false).value
  {
    if pat[0] == '\\' {
      if pat[1] != '?' { DocumentHasQuestion(pat[2..]); }
    } else {
      DocumentHasQuestion(pat[1..]);
    }
  }

  /** What a literal term stands for occurs in every match. */
  lemma {:induction false} LiteralOccurs(terms: seq<Term>, s: string, c: char)
    requires Matches(terms, s) && Lit(c) in terms
    ensures c in s
  {
    assert terms == [terms[0]] + terms[1..];
    var k := FirstCut(terms[0], terms[1..], s);
    if terms[0] == Lit(c) {
      assert c == s[..k][0];
    } else {
      LiteralOccurs(terms[1..], s[k..], c);
    }
  }

  /** With escapes, the program matches as documented on every string exactly when
      the pattern escapes no question mark, or ends in a lone backslash and so
      matches nothing either way. */
  lemma EscapesAsDocumentedIff(pat: string)
    ensures (forall s: string :: Accepts(Terms(pat, false), s) <==> Accepts(DocumentedTerms(pat, false), s))
      <==> !EscapedQuestion(pat) || Dangling(pat)
  {
    SomeUnlessDangling(pat);
    if EscapedQuestion(pat) && !Dangling(pat) {
      var terms := Terms(pat, false).value;
      var s := Sample(terms);
      SampleMatches(terms);
      ProgramHasNoQuestion(pat);
      SampleHasNoQuestion(terms);
      DocumentHasQuestion(pat);
      if Matches(DocumentedTerms(pat, false).value, s) {
        LiteralOccurs(DocumentedTerms(pat, false).value, s, '?');
      }
      assert Accepts(Terms(pat, false), s) && !Accepts(DocumentedTerms(pat, false), s);
    }
  }

  // --------------------------------------------------- what a pattern accepts

  /** Which strings a pattern accepts, by its first term. */
  lemma GlobByFirst(c: char, pat: string, s: string)
    ensures Accepts(DocumentedTerms("", true), s) <==> s == ""
    ensures c != '*' && c != '?' ==>
      (Accepts(DocumentedTerms([c] + pat, true), s) <==>
        s != "" && s[0] == c && Accepts(DocumentedTerms(pat, true), s[1..]))
    ensures Accepts(DocumentedTerms("?" + pat, true), s) <==> s != "" && Accepts(DocumentedTerms(pat, true), s[1..])
    ensures Accepts(DocumentedTerms("*" + pat, true), s) <==>
      exists k :: 0 <= k <= |s| && Accepts(DocumentedTerms(pat, true), s[k..])
  {
    MatchesNothing(s);
    GlobIsDocumented(pat);
    var terms := DocumentedTerms(pat, true).value;
    FirstTerm(c, pat);
    FirstTerm('?', pat);
    FirstTerm('*', pat);
    MatchesOne(Lit(c), terms, s);
    MatchesOne(AnyOne, terms, s);
    StarCuts(terms, s);
  }

  lemma FirstTerm(c: char, pat: string)
    ensures DocumentedTerms([c] + pat, true) ==
      Prepend(if c == '*' then Star else if c == '?' then AnyOne else Lit(c), DocumentedTerms(pat, true))
  {
    assert ([c] + pat)[0] == c && ([c] + pat)[1..] == pat;
  }

  lemma StarCuts(terms: seq<Term>, s: string)
    ensures Matches([Star] + terms, s) <==> exists k :: 0 <= k <= |s| && Matches(terms, s[k..])
  {
    if Matches([Star] + terms, s) { var k := FirstCut(Star, terms, s); }
    if k :| 0 <= k <= |s| && Matches(terms, s[k..]) { CutFirst(Star, terms, s, k); }
  }

  /** With escapes the program takes a character after a backslash for itself, but for
      the question mark; other characters as without. */
  lemma EscapeByFirst(c: char, pat: string, s: string)
    ensures c != '?' ==>
      (Accepts(Terms("\\" + [c] + pat, false), s) <==> s != "" && s[0] == c && Accepts(Terms(pat, false), s[1..]))
    ensures Accepts(Terms("\\?" + pat, false), s) <==> s != "" && Accepts(Terms(pat, false), s[1..])
    ensures !Accepts(Terms("\\", false), s)
    ensures c != '*' && c != '?' && c != '\\' ==>
      (Accepts(Terms([c] + pat, false), s) <==> s != "" && s[0] == c && Accepts(Terms(pat, false), s[1..]))
    ensures Accepts(Terms("?" + pat, false), s) <==> s != "" && Accepts(Terms(pat, false), s[1..])
    ensures Accepts(Terms("*" + pat, false), s) <==> exists k :: 0 <= k <= |s| && Accepts(Terms(pat, false), s[k..])
  {
    EscapedTerm(c, pat);
    EscapedTerm('?', pat);
    assert "\\?" + pat == "\\" + ['?'] + pat;
    if c != '\\' { PlainTerm(c, pat); }
    PlainTerm('?', pat);
    PlainTerm('*', pat);
    if Terms(pat, false).Some? {
      var terms := Terms(pat, false).value;
      MatchesOne(Lit(c), terms, s);
      MatchesOne(AnyOne, terms, s);
      StarCuts(terms, s);
    }
  }

  lemma EscapedTerm(c: char, pat: string)
    ensures Terms("\\" + [c] + pat, false) == Prepend(if c == '?' then AnyOne else Lit(c), Terms(pat, false))
  {
    var p := "\\" + [c] + pat;
    assert p[0] == '\\' && p[1] == c && p[2..] == pat;
  }

  lemma PlainTerm(c: char, pat: string)
    requires c != '\\'
    ensures Terms([c] + pat, false) ==
      Prepend(if c == '*' then Star else if c == '?' then AnyOne else Lit(c), Terms(pat, false))
  {
    assert ([c] + pat)[0] == c && ([c] + pat)[1..] == pat;
  }
}
