/** String operations the Go code takes from package strings, as total functions. */
module Text {

  /** True when p occurs in s at position i. */
  predicate OccursAt(s: string, p: string, i: int) {
    0 <= i && i + |p| <= |s| && s[i..i + |p|] == p
  }

  /** strings.Index for a single character: the first position, or -1. */
  function IndexChar(s: string, c: char): (i: int)
    ensures -1 <= i < |s|
    ensures i >= 0 ==> s[i] == c && forall j :: 0 <= j < i ==> s[j] != c
    ensures i < 0 <==> c !in s
  {
    if s == "" then -1
    else if s[0] == c then 0
    else
      var rest := IndexChar(s[1..], c);
      if rest < 0 then -1 else rest + 1
  }

  /** strings.Index: the first position where p occurs, or -1. */
  function IndexOf(s: string, p: string): (i: int)
    ensures -1 <= i <= |s|
    ensures i >= 0 ==> OccursAt(s, p, i)
    ensures i >= 0 ==> forall j :: 0 <= j < i ==> !OccursAt(s, p, j)
    ensures i < 0 ==> forall j :: !OccursAt(s, p, j)
  {
    IndexFrom(s, p, 0)
  }

  function IndexFrom(s: string, p: string, from: nat): (i: int)
    requires from <= |s|
    ensures i < 0 || from <= i <= |s|
    ensures -1 <= i
    ensures i >= 0 ==> OccursAt(s, p, i)
    ensures i >= 0 ==> forall j :: from <= j < i ==> !OccursAt(s, p, j)
    ensures i < 0 ==> forall j :: from <= j ==> !OccursAt(s, p, j)
    decreases |s| - from
  {
    if OccursAt(s, p, from) then from
    else if from == |s| then -1
    else IndexFrom(s, p, from + 1)
  }

  /** The first occurrence is unique. */
  lemma FirstOccurrence(s: string, p: string, i: nat)
    requires OccursAt(s, p, i)
    requires forall j :: 0 <= j < i ==> !OccursAt(s, p, j)
    ensures IndexOf(s, p) == i
  {
  }

  /** The first position of c in a + b, when a is free of c and b starts with it. */
  lemma IndexCharAfter(a: string, b: string, c: char)
    requires c !in a && b != "" && b[0] == c
    ensures IndexChar(a + b, c) == |a|
  {
    var s := a + b;
    assert s[|a|] == c;
    assert forall j :: 0 <= j < |a| ==> s[j] == a[j];
  }

  /** strings.Join(parts, "."). */
  function Join(parts: seq<string>): (s: string)
    ensures |s| + 1 == Weight(parts) || (parts == [] && s == "")
  {
    if parts == [] then ""
    else if |parts| == 1 then parts[0]
    else parts[0] + "." + Join(parts[1..])
  }

  /** Total length of the parts, counting one separator for each. */
  function Weight(parts: seq<string>): nat {
    if parts == [] then 0 else |parts[0]| + 1 + Weight(parts[1..])
  }

  /** strings.TrimPrefix(s, "."). */
  function TrimDot(s: string): (r: string)
    ensures |r| <= |s|
    ensures if s != "" && s[0] == '.' then s == "." + r else r == s
  {
    if "." <= s then s[1..] else s
  }

  predicate IsQuoteMark(c: char) { c == '\'' || c == '\"' }

  /** strings.Trim(s, "'\""). */
  function TrimQuotes(s: string): string {
    TrimQuotesRight(TrimQuotesLeft(s))
  }

  function TrimQuotesLeft(s: string): string {
    if s != "" && IsQuoteMark(s[0]) then TrimQuotesLeft(s[1..]) else s
  }

  function TrimQuotesRight(s: string): string {
    if s != "" && IsQuoteMark(s[|s| - 1]) then TrimQuotesRight(s[..|s| - 1]) else s
  }

  // -----------------------------------------------------------------------------------
  // Sequence identities, named so that proofs can cite one at a time

  lemma Assoc<T>(a: seq<T>, b: seq<T>, c: seq<T>)
    ensures (a + b) + c == a + (b + c)
  {
  }

  lemma Uncons<T>(x: T, s: seq<T>)
    ensures ([x] + s)[0] == x && ([x] + s)[1..] == s
  {
  }

  lemma Recons<T>(s: seq<T>)
    requires s != []
    ensures [s[0]] + s[1..] == s
  {
  }

  lemma Unsnoc<T>(s: seq<T>)
    requires s != []
    ensures s[..|s| - 1] + [s[|s| - 1]] == s
  {
  }

  /** Moving the first element of s to the end of a. */
  lemma Shift<T>(a: seq<T>, s: seq<T>)
    requires s != []
    ensures (a + [s[0]]) + s[1..] == a + s
  {
  }

  lemma TailOfConcat<T>(a: seq<T>, b: seq<T>)
    requires a != []
    ensures (a + b)[0] == a[0] && (a + b)[1..] == a[1..] + b
  {
  }

  lemma Unit<T>(s: seq<T>)
    ensures s + [] == s && [] + s == s
  {
  }

  lemma JoinCons(p: string, parts: seq<string>)
    requires parts != []
    ensures Join([p] + parts) == p + "." + Join(parts)
  {
    Uncons(p, parts);
  }
}
