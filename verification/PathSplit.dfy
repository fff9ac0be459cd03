/**
 Splitting a dotted path into parts (lib/assertions.go, splitJSONPath). A dot separates
 parts only at bracket depth zero; the depth may also go negative.
 */
module PathSplit {
  import opened Text

  /** The change of depth one character makes. */
  function DepthStep(c: char): int {
    if c == '[' then 1 else if c == ']' then -1 else 0
  }

  function DepthAfter(s: string, depth: int): int {
    if s == "" then depth else DepthAfter(s[1..], depth + DepthStep(s[0]))
  }

  /** No character of s, read from the given depth, is a separating dot. */
  predicate DotFree(s: string, depth: int) {
    s == "" || (!(s[0] == '.' && depth == 0) && DotFree(s[1..], depth + DepthStep(s[0])))
  }

  function SplitFrom(s: string, depth: int, current: string): (parts: seq<string>)
    ensures Weight(parts) <= |s| + |current| + 1
    ensures parts == [] <==> s == "" && current == ""
    decreases |s|
  {
    if s == "" then (if current == "" then [] else [current])
    else if s[0] == '.' && depth == 0 then [current] + SplitFrom(s[1..], 0, "")
    else SplitFrom(s[1..], depth + DepthStep(s[0]), current + [s[0]])
  }

  function Split(path: string): (parts: seq<string>)
    ensures Weight(parts) <= |path| + 1
  {
    SplitFrom(path, 0, "")
  }

  /** The scanning loop of the source, against the recursive specification. */
  method SplitJSONPath(path: string) returns (parts: seq<string>)
    ensures parts == Split(path)
  {
    parts := [];
    var current := "";
    var depth := 0;
    for i := 0 to |path|
      invariant parts + SplitFrom(path[i..], depth, current) == Split(path)
    {
      var ch := path[i];
      assert path[i..][1..] == path[i + 1..];
      if ch == '[' {
        depth := depth + 1;
        current := current + [ch];
      } else if ch == ']' {
        depth := depth - 1;
        current := current + [ch];
      } else if ch == '.' && depth == 0 {
        parts := parts + [current];
        current := "";
      } else {
        current := current + [ch];
      }
    }
    assert path[|path|..] == "";
    if |current| > 0 {
      parts := parts + [current];
    }
  }

  // -----------------------------------------------------------------------------------
  // Depth and separating dots over a concatenation

  lemma {:induction false} DepthConcat(a: string, b: string, depth: int)
    ensures DepthAfter(a + b, depth) == DepthAfter(b, DepthAfter(a, depth))
    decreases a
  {
    if a == "" {
      Unit(b);
    } else {
      TailOfConcat(a, b);
      DepthConcat(a[1..], b, depth + DepthStep(a[0]));
    }
  }

  lemma {:induction false} DotFreeConcat(a: string, b: string, depth: int)
    ensures DotFree(a + b, depth) <==> DotFree(a, depth) && DotFree(b, DepthAfter(a, depth))
    decreases a
  {
    if a == "" {
      Unit(b);
    } else {
      TailOfConcat(a, b);
      DotFreeConcat(a[1..], b, depth + DepthStep(a[0]));
    }
  }

  /** Text without brackets keeps the depth; its dots separate only at depth zero. */
  lemma {:induction false} BracketFree(s: string, depth: int)
    requires '[' !in s && ']' !in s
    ensures DepthAfter(s, depth) == depth
    ensures depth != 0 || '.' !in s ==> DotFree(s, depth)
  {
    if s != "" {
      assert s[0] in s;
      forall c | c in s[1..] ensures c in s { }
      BracketFree(s[1..], depth);
    }
  }

  // -----------------------------------------------------------------------------------
  // Splitting is exact

  /** The path ends in a dot that separates (so the empty last part is dropped). */
  predicate EndsInSeparator(path: string, depth: int) {
    path != "" && path[|path| - 1] == '.' && DepthAfter(path[..|path| - 1], depth) == 0
  }

  lemma {:induction false} SplitPrefix(p: string, t: string, depth: int, current: string)
    requires DotFree(p, depth)
    ensures SplitFrom(p + t, depth, current) == SplitFrom(t, DepthAfter(p, depth), current + p)
    decreases p
  {
    if p == "" {
      Unit(t);
      Unit(current);
    } else {
      TailOfConcat(p, t);
      Shift(current, p);
      SplitPrefix(p[1..], t, depth + DepthStep(p[0]), current + [p[0]]);
    }
  }

  function DroppedDot(s: string, depth: int): string {
    if EndsInSeparator(s, depth) then "." else ""
  }

  /** Joining what splitting produced gives back the input, up to one dropped final dot. */
  lemma {:induction false} JoinSplitFrom(s: string, depth: int, current: string)
    ensures Join(SplitFrom(s, depth, current)) + DroppedDot(s, depth) == current + s
    decreases |s|
  {
    if s == "" {
      Unit(current);
    } else if s[0] == '.' && depth == 0 {
      JoinSplitFrom(s[1..], 0, "");
      JoinSplitDot(s, current);
    } else {
      JoinSplitFrom(s[1..], depth + DepthStep(s[0]), current + [s[0]]);
      JoinSplitOther(s, depth, current);
      Shift(current, s);
    }
  }

  lemma JoinSplitOther(s: string, depth: int, current: string)
    requires s != "" && !(s[0] == '.' && depth == 0)
    ensures Join(SplitFrom(s, depth, current))
            == Join(SplitFrom(s[1..], depth + DepthStep(s[0]), current + [s[0]]))
    ensures DroppedDot(s, depth) == DroppedDot(s[1..], depth + DepthStep(s[0]))
  {
    if |s| > 1 {
      TailEndsInSeparator(s, depth);
    } else {
      assert s[..0] == "";
    }
  }

  lemma JoinSplitDot(s: string, current: string)
    requires s != "" && s[0] == '.'
    requires Join(SplitFrom(s[1..], 0, "")) + DroppedDot(s[1..], 0) == "" + s[1..]
    ensures Join(SplitFrom(s, 0, current)) + DroppedDot(s, 0) == current + s
  {
    var rest := s[1..];
    var parts := SplitFrom(rest, 0, "");
    Recons(s);
    Unit(rest);
    if rest == "" {
      assert s[..0] == "" && s == ".";
      Unit([current]);
    } else {
      TailEndsInSeparator(s, 0);
      JoinCons(current, parts);
      Assoc(current + ".", Join(parts), DroppedDot(rest, 0));
      Assoc(current, ".", rest);
    }
  }

  lemma TailEndsInSeparator(s: string, depth: int)
    requires |s| > 1
    ensures EndsInSeparator(s, depth) <==> EndsInSeparator(s[1..], depth + DepthStep(s[0]))
  {
    assert s[..|s| - 1][1..] == s[1..][..|s[1..]| - 1];
  }

  /** splitJSONPath loses nothing, whatever the brackets: the parts determine the input. */
  lemma JoinSplit(path: string)
    ensures Join(Split(path)) + DroppedDot(path, 0) == path
  {
    JoinSplitFrom(path, 0, "");
  }

  // -----------------------------------------------------------------------------------
  // Which lists of parts survive a join and a split

  /** No part holds a separating dot, every part but the last is balanced, the last is not empty. */
  predicate Separable(parts: seq<string>) {
    parts == [] ||
    (DotFree(parts[0], 0) &&
     if |parts| == 1 then parts[0] != "" else DepthAfter(parts[0], 0) == 0 && Separable(parts[1..]))
  }

  lemma {:induction false} SplitJoin(parts: seq<string>)
    requires Separable(parts)
    ensures Split(Join(parts)) == parts
  {
    if parts != [] {
      var p := parts[0];
      Unit(p);
      if |parts| == 1 {
        SplitPrefix(p, "", 0, "");
      } else {
        var rest := Join(parts[1..]);
        SplitPrefix(p, "." + rest, 0, "");
        Assoc(p, ".", rest);
        Uncons('.', rest);
        SplitJoin(parts[1..]);
        Recons(parts);
      }
    }
  }

  /** What the scan has collected so far: no separating dot, and the depth it stands at. */
  lemma {:induction false} SplitFromSeparable(s: string, depth: int, current: string)
    requires DotFree(current, 0) && DepthAfter(current, 0) == depth
    requires !EndsInSeparator(s, depth)
    ensures Separable(SplitFrom(s, depth, current))
    decreases |s|
  {
    if s != "" {
      if |s| > 1 {
        TailEndsInSeparator(s, depth);
      }
      if s[0] == '.' && depth == 0 {
        assert s[..0] == "";
        assert |s| > 1;
        SplitFromSeparable(s[1..], 0, "");
        assert SplitFrom(s, depth, current)[1..] == SplitFrom(s[1..], 0, "");
      } else {
        DepthConcat(current, [s[0]], 0);
        DotFreeConcat(current, [s[0]], 0);
        SplitFromSeparable(s[1..], depth + DepthStep(s[0]), current + [s[0]]);
      }
    }
  }

  /** A list of parts comes back from a join and a split exactly when it is separable. */
  lemma SplitJoinExact(parts: seq<string>)
    ensures Split(Join(parts)) == parts <==> Separable(parts)
  {
    if Separable(parts) {
      SplitJoin(parts);
    } else if Split(Join(parts)) == parts {
      JoinSplit(Join(parts));
      SplitFromSeparable(Join(parts), 0, "");
    }
  }
}
