/**
 Strings ended by a NUL character.
 */
module CStrings {
  const NUL: char := '\0'

  /** The string a character array holds: what precedes the first NUL. */
  function CString(s: seq<char>): (r: string)
    ensures |r| <= |s| && r == s[..|r|] && NUL !in r
    ensures |r| < |s| ==> s[|r|] == NUL
  {
    if s == [] || s[0] == NUL then "" else [s[0]] + CString(s[1..])
  }

  lemma {:induction false} CStringIs(s: seq<char>, n: nat)
    requires n < |s| && NUL !in s[..n] && s[n] == NUL
    ensures CString(s) == s[..n]
  {
    if n > 0 {
      assert s[0] in s[..n];
      forall c | c in s[1..][..n - 1] ensures c in s[..n] { }
      assert s[1..][..n - 1] == s[1..n];
      CStringIs(s[1..], n - 1);
    }
  }
}
