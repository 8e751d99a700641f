/**
 Finding the only name with a given prefix in an ordered list of names, stopping as
 soon as the answer seems certain.
 */
module UniquePrefix {
  import opened Common

  /** `strcmp(a, b) <= 0`. */
  predicate Leq(a: string, b: string) {
    a == "" || (b != "" && (a[0] < b[0] || (a[0] == b[0] && Leq(a[1..], b[1..]))))
  }

  lemma {:induction false} LeqTotal(a: string, b: string)
    ensures Leq(a, b) || Leq(b, a)
    ensures Leq(a, b) && Leq(b, a) ==> a == b
  {
    if a != "" && b != "" && a[0] == b[0] {
      LeqTotal(a[1..], b[1..]);
      assert a == [a[0]] + a[1..] && b == [b[0]] + b[1..];
    }
  }

  lemma {:induction false} LeqTransitive(a: string, b: string, c: string)
    requires Leq(a, b) && Leq(b, c)
    ensures Leq(a, c)
  {
    if a != "" && b != "" && c != "" && a[0] == b[0] == c[0] { LeqTransitive(a[1..], b[1..], c[1..]); }
  }

  lemma {:induction false} PrefixLeq(a: string, b: string)
    requires a <= b
    ensures Leq(a, b)
  {
    if a != "" { PrefixLeq(a[1..], b[1..]); }
  }

  predicate Sorted(names: seq<string>) {
    forall i, j | 0 <= i < j < |names| :: Leq(names[i], names[j])
  }

  /** The outcome of scanning `names[i..]` with a match so far. */
  function Scan(names: seq<string>, token: string, i: nat, found: Option<nat>): Option<nat>
    requires i <= |names|
    decreases |names| - i
  {
    if i == |names| then found
    else if !(token <= names[i]) then Scan(names, token, i + 1, found)
    else if token == names[i] then Some(i)
    else if found.Some? then None
    else Scan(names, token, i + 1, Some(i))
  }

  /** `FindUniquePrefix`. */
  function Lookup(names: seq<string>, token: string): Option<nat> {
    Scan(names, token, 0, None)
  }

  // ---------------------------------------------------------- what it is for

  ghost predicate FirstExact(names: seq<string>, token: string, e: nat) {
    && e < |names| && names[e] == token
    && forall i | 0 <= i < e :: names[i] != token
  }

  /** The only entry, among those before `n`, that starts with the token. */
  ghost predicate OnlyPrefix(names: seq<string>, token: string, k: nat, n: nat)
    requires n <= |names|
  {
    && k < n && token <= names[k]
    && forall i | 0 <= i < n && token <= names[i] :: i == k
  }

  ghost predicate NoPrefix(names: seq<string>, token: string, n: nat)
    requires n <= |names|
  {
    forall i | 0 <= i < n :: !(token <= names[i])
  }

  /** The exact match if there is one, else the only entry with the prefix, else
      nothing. */
  ghost predicate IsAnswer(names: seq<string>, token: string, answer: Option<nat>) {
    if token in names then answer.Some? && FirstExact(names, token, answer.value)
    else if answer.Some? then OnlyPrefix(names, token, answer.value, |names|)
    else !exists k: nat :: OnlyPrefix(names, token, k, |names|)
  }

  /** Two entries longer than the token come before its exact match. */
  ghost predicate Hidden(names: seq<string>, token: string) {
    exists i: nat, j: nat, e: nat :: i < j < e && FirstExact(names, token, e) && token <= names[i] && token <= names[j]
  }

  /** What the scan has seen of the entries before `i`. */
  ghost predicate Seen(names: seq<string>, token: string, i: nat, found: Option<nat>) {
    && i <= |names|
    && (forall k | 0 <= k < i :: names[k] != token)
    && (if found.Some? then OnlyPrefix(names, token, found.value, i) else NoPrefix(names, token, i))
  }

  lemma {:induction false} ScanAnswers(names: seq<string>, token: string, i: nat, found: Option<nat>)
    requires Seen(names, token, i, found)
    ensures IsAnswer(names, token, Scan(names, token, i, found)) <==> !Hidden(names, token)
    decreases |names| - i
  {
    if i == |names| {
    } else if token <= names[i] && token == names[i] {
      assert FirstExact(names, token, i);
    } else if token <= names[i] && found.Some? {
      if token in names {
        var e := FirstIndex(names, token);
        assert found.value < i < e && FirstExact(names, token, e);
      }
    } else {
      ScanAnswers(names, token, i + 1, if token <= names[i] then Some(i) else found);
    }
  }

  lemma {:induction false} FirstIndex(names: seq<string>, token: string) returns (e: nat)
    requires token in names
    ensures FirstExact(names, token, e)
  {
    if names[0] == token {
      e := 0;
    } else {
      var d := FirstIndex(names[1..], token);
      e := d + 1;
      forall i | 0 <= i < e ensures names[i] != token {
        if i > 0 { assert names[i] == names[1..][i - 1]; }
      }
    }
  }

  /** On any list at all, the early exit gives the right answer unless two longer
      entries come before the exact match. */
  lemma LookupIsRightIff(names: seq<string>, token: string)
    ensures IsAnswer(names, token, Lookup(names, token)) <==> !Hidden(names, token)
  {
    ScanAnswers(names, token, 0, None);
  }

  /** On a sorted list none ever does. */
  lemma SortedLookup(names: seq<string>, token: string)
    requires Sorted(names)
    ensures IsAnswer(names, token, Lookup(names, token))
  {
    LookupIsRightIff(names, token);
    if Hidden(names, token) {
      var i: nat, j: nat, e: nat :|
        i < j < e && FirstExact(names, token, e) && token <= names[i] && token <= names[j];
      PrefixLeq(token, names[i]);
      LeqTotal(token, names[i]);
      assert false;
    }
  }

  /** The order is needed: a list that is not sorted can hide the exact match. */
  lemma UnsortedCanHide()
    ensures !Sorted(["ab", "ac", "a"]) && Lookup(["ab", "ac", "a"], "a") == None
    ensures !IsAnswer(["ab", "ac", "a"], "a", None)
  {
    var names := ["ab", "ac", "a"];
    assert Leq("b", "") == false;
    assert "ab"[1..] == "b" && "a"[1..] == "";
    assert !Leq(names[0], names[2]);
    assert names[2] == "a" && "a" in names;
    assert Scan(names, "a", 1, Some(0)) == None;
  }

  /** `FindUniquePrefix` on the keys of an ordered map. */
  method FindUniquePrefix(keys: seq<string>, token: string) returns (found: Option<nat>)
    requires Sorted(keys)
    ensures IsAnswer(keys, token, found)
  {
    SortedLookup(keys, token);
    found := None;
    var i := 0;
    while i < |keys|
      invariant i <= |keys|
      invariant Lookup(keys, token) == Scan(keys, token, i, found)
    {
      if token <= keys[i] {
        if |token| == |keys[i]| {
          assert token == keys[i];
          return Some(i);
        }
        if found.Some? {
          return None;
        }
        found := Some(i);
      }
      i := i + 1;
    }
  }
}
