/**
 The string interpreter of the path language (lib/assertions.go, ResolveJSONPath): first as
 recursive functions on strings, then as the loops of the source, proved equal.
 */
module PathResolve {
  import opened Text
  import opened Decimal
  import opened Json
  import opened PathSplit

  /** A value (nil included) or an error; the text of the error is not modelled. */
  datatype Outcome = Ok(value: Value) | Err

  const FILTER_OPEN := "[?(@."

  function StripRoot(path: string): (r: string)
    ensures |r| <= |path|
  {
    if "$." <= path then path[2..] else path
  }

  function Resolve(render: Value -> string, path: string, data: Value): Outcome
    decreases |path| + 1, 2, 0
  {
    ResolveParts(render, Split(StripRoot(path)), data)
  }

  function ResolveParts(render: Value -> string, parts: seq<string>, current: Value): Outcome
    decreases Weight(parts), 1, 0
  {
    if parts == [] then Ok(current)
    else
      var part, tail := parts[0], parts[1..];
      if part == "" then ResolveParts(render, tail, current)
      else
        var open := IndexChar(part, '[');
        if open < 0 then
          if !current.Obj? then Err
          else if part !in current.fields then Ok(Null)
          else ResolveParts(render, tail, current.fields[part])
        else
          var field, rest := part[..open], part[open..];
          if field != "" && !current.Obj? then Err
          else
            var v := if field == "" then current else Lookup(current.fields, field);
            if FILTER_OPEN <= rest then ResolveFilter(render, rest, tail, v)
            else ResolveIndexes(render, rest, tail, v)
  }

  /** [?(@.key==val)] taken apart: the key, the value without quotes, and the text behind. */
  datatype Condition = Malformed | Condition(key: string, val: string, after: string)

  function ParseFilter(rest: string): (c: Condition)
    requires FILTER_OPEN <= rest
    ensures c.Condition? ==> |c.after| < |rest|
  {
    var close := IndexOf(rest, ")]");
    if close < 0 then Malformed
    else
      FilterCloses(rest);
      var expr := rest[5..close];
      var eq := IndexOf(expr, "==");
      if eq < 0 then Malformed
      else Condition(expr[..eq], TrimQuotes(expr[eq + 2..]), rest[close + 2..])
  }

  function ResolveFilter(render: Value -> string, rest: string, tail: seq<string>, v: Value): Outcome
    requires FILTER_OPEN <= rest
    decreases |rest| + 1 + Weight(tail), 0, 0
  {
    match ParseFilter(rest)
    case Malformed => Err
    case Condition(key, val, after) =>
      if !v.Arr? then Err
      else
        var hit := FirstMatch(render, v.items, key, val);
        if "." <= after && !hit.Null? then Resolve(render, after[1..], hit)
        else ResolveParts(render, tail, hit)
  }

  /** The text of a filter is never shorter than its opening, so slicing it cannot fail. */
  lemma FilterCloses(rest: string)
    requires FILTER_OPEN <= rest && IndexOf(rest, ")]") >= 0
    ensures IndexOf(rest, ")]") >= 5
  {
    var close := IndexOf(rest, ")]");
    assert rest[close] == rest[close..close + 2][0] == ')';
    assert forall k :: 0 <= k < 5 ==> rest[k] == FILTER_OPEN[k];
  }

  function ResolveIndexes(render: Value -> string, rest: string, tail: seq<string>, v: Value): Outcome
    decreases |rest| + 1 + Weight(tail), 0, 0
  {
    if rest == "" then ResolveParts(render, tail, v)
    else if rest[0] != '[' then Err
    else
      var close := IndexChar(rest, ']');
      if close < 0 then Err
      else
        var index, after := rest[1..close], rest[close + 1..];
        if index == "*" then
          if !v.Arr? then Err
          else Ok(Arr(Collect(render, Remaining(after, tail), v.items)))
        else
          match Atoi(index)
          case None => Err
          case Some(n) =>
            if !v.Arr? || n < 0 || n >= |v.items| then Err
            else ResolveIndexes(render, after, tail, v.items[n])
  }

  /** The path text a wildcard re-assembles from what it has not consumed. */
  function Remaining(after: string, tail: seq<string>): (path: string)
    ensures |path| <= |after| + Weight(tail)
  {
    TrimDot(Join(if after == "" then tail else [after] + tail))
  }

  /** Brackets that do not match may leave a dot behind a wildcard; it is dropped. */
  lemma DotBehindWildcard(render: Value -> string, path: string, tail: seq<string>, items: seq<Value>)
    ensures ResolveIndexes(render, "[*]." + path, tail, Arr(items))
      == Ok(Arr(Collect(render, if tail == [] then path else path + "." + Join(tail), items)))
  {
    var rest := "[*]." + path;
    assert rest == "[*" + ("]." + path);
    IndexCharAfter("[*", "]." + path, ']');
    assert rest[1..2] == "*" && rest[3..] == "." + path;
    RemainingBehindDot(path, tail);
  }

  lemma RemainingBehindDot(path: string, tail: seq<string>)
    ensures Remaining("." + path, tail) == if tail == [] then path else path + "." + Join(tail)
  {
    if tail == [] {
      Unit(["." + path]);
    } else {
      JoinCons("." + path, tail);
      Assoc(".", path, "." + Join(tail));
      Assoc("." + path, ".", Join(tail));
      Assoc(path, ".", Join(tail));
    }
  }

  /** The wildcard's results: everything when nothing remains, else the non-nil successes. */
  function Collect(render: Value -> string, path: string, items: seq<Value>): seq<Value>
    decreases |path| + 1, 3, |items|
  {
    if items == [] then []
    else CollectOne(render, path, items[0]) + Collect(render, path, items[1..])
  }

  function CollectOne(render: Value -> string, path: string, item: Value): seq<Value>
    decreases |path| + 1, 3, 0
  {
    if path == "" then [item]
    else
      var r := Resolve(render, path, item);
      if r.Ok? && !r.value.Null? then [r.value] else []
  }

  predicate MatchesFilter(render: Value -> string, item: Value, key: string, val: string) {
    item.Obj? && key in item.fields && Sprint(render, item.fields[key]) == val
  }

  /** hit stands in the list, satisfies the filter, and no item before it does. */
  ghost predicate IsFirstMatch(render: Value -> string, items: seq<Value>, key: string, val: string, hit: Value) {
    exists i :: 0 <= i < |items| && items[i] == hit && MatchesFilter(render, hit, key, val) &&
      forall j :: 0 <= j < i ==> !MatchesFilter(render, items[j], key, val)
  }

  /** The first item that satisfies the filter, or nil. */
  function FirstMatch(render: Value -> string, items: seq<Value>, key: string, val: string): (hit: Value)
    ensures !hit.Null? ==> IsFirstMatch(render, items, key, val, hit)
    ensures hit.Null? ==> forall item :: item in items ==> !MatchesFilter(render, item, key, val)
  {
    if items == [] then Null
    else if MatchesFilter(render, items[0], key, val) then items[0]
    else
      var hit := FirstMatch(render, items[1..], key, val);
      assert !hit.Null? ==> IsFirstMatch(render, items, key, val, hit) by {
        if !hit.Null? {
          var i :| 0 <= i < |items[1..]| && items[1..][i] == hit && MatchesFilter(render, hit, key, val) &&
            forall j :: 0 <= j < i ==> !MatchesFilter(render, items[1..][j], key, val);
          assert items[i + 1] == hit;
          assert forall j :: 0 < j < i + 1 ==> items[j] == items[1..][j - 1];
        }
      }
      hit
  }

  // -----------------------------------------------------------------------------------
  // The loops of the source

  /**
   ResolveJSONPath itself: a loop over the parts that updates "current", with an early
   return for errors, missing fields, wildcards and the text that follows a filter.
   */
  method ResolveJSONPath(render: Value -> string, path: string, data: Value) returns (r: Outcome)
    ensures r == Resolve(render, path, data)
    decreases |path| + 1, 2, 0
  {
    var parts := SplitJSONPath(StripRoot(path));
    var current := data;
    for i := 0 to |parts|
      invariant ResolveParts(render, parts[i..], current) == Resolve(render, path, data)
      invariant Weight(parts[i..]) <= |path| + 1
    {
      var part := parts[i];
      assert parts[i..][1..] == parts[i + 1..];
      if part == "" {
        continue;
      }
      var open := IndexChar(part, '[');
      if open >= 0 {
        var field := part[..open];
        var rest := part[open..];
        if field != "" {
          if !current.Obj? {
            return Err;
          }
          current := Lookup(current.fields, field);
        }
        var walked: Walk;
        if FILTER_OPEN <= rest {
          walked := WalkFilter(render, rest, parts[i + 1..], current);
        } else {
          walked := WalkIndexes(render, rest, parts[i + 1..], current);
        }
        match walked
        case Value(v) => current := v;
        case Return(early) => return early;
      } else {
        if !current.Obj? {
          return Err;
        }
        if part !in current.fields {
          return Ok(Null);
        }
        current := current.fields[part];
      }
    }
    assert parts[|parts|..] == [];
    return Ok(current);
  }

  /** The filter branch of ResolveJSONPath: the first matching item, brackets behind it dropped. */
  method WalkFilter(render: Value -> string, brackets: string, tail: seq<string>, current: Value)
    returns (w: Walk)
    requires FILTER_OPEN <= brackets
    ensures ResolveFilter(render, brackets, tail, current)
            == match w case Value(v) => ResolveParts(render, tail, v) case Return(early) => early
    decreases |brackets| + 1 + Weight(tail), 0, 0
  {
    var condition := ParseFilter(brackets);
    if condition.Malformed? || !current.Arr? {
      return Return(Err);
    }
    var rest := condition.after;
    var matched := FindMatch(render, current.items, condition.key, condition.val);
    if rest != "" && !matched.Null? {
      if "." <= rest {
        var r := ResolveJSONPath(render, rest[1..], matched);
        return Return(r);
      }
    }
    return Value(matched);
  }

  /** Where a run of brackets leaves the interpreter: a value to go on with, or its result. */
  datatype Walk = Value(v: Value) | Return(early: Outcome)

  /** The inner loop of ResolveJSONPath: chained [n], or [*] which ends the walk. */
  method WalkIndexes(render: Value -> string, brackets: string, tail: seq<string>, start: Value)
    returns (w: Walk)
    ensures ResolveIndexes(render, brackets, tail, start)
            == match w case Value(v) => ResolveParts(render, tail, v) case Return(early) => early
    decreases |brackets| + 1 + Weight(tail), 0, 0
  {
    var current := start;
    var rest := brackets;
    while rest != ""
      invariant |rest| <= |brackets|
      invariant ResolveIndexes(render, rest, tail, current)
                == ResolveIndexes(render, brackets, tail, start)
      decreases |rest|
    {
      if rest[0] != '[' {
        return Return(Err);
      }
      var close := IndexChar(rest, ']');
      if close < 0 {
        return Return(Err);
      }
      var index := rest[1..close];
      rest := rest[close + 1..];
      if index == "*" {
        if !current.Arr? {
          return Return(Err);
        }
        var segments := tail;
        if rest != "" {
          segments := [rest] + tail;
        }
        var results := CollectAll(render, TrimDot(Join(segments)), current.items);
        return Return(Ok(Arr(results)));
      }
      var n := Atoi(index);
      if n.None? || !current.Arr? || n.value < 0 || n.value >= |current.items| {
        return Return(Err);
      }
      current := current.items[n.value];
    }
    return Value(current);
  }

  method CollectAll(render: Value -> string, path: string, items: seq<Value>) returns (results: seq<Value>)
    ensures results == Collect(render, path, items)
    decreases |path| + 1, 3, 1
  {
    results := [];
    for k := 0 to |items|
      invariant results + Collect(render, path, items[k..]) == Collect(render, path, items)
    {
      assert items[k..][1..] == items[k + 1..];
      if path == "" {
        results := results + [items[k]];
      } else {
        var val := ResolveJSONPath(render, path, items[k]);
        if val.Ok? && !val.value.Null? {
          results := results + [val.value];
        }
      }
    }
    assert items[|items|..] == [];
  }

  method FindMatch(render: Value -> string, items: seq<Value>, key: string, val: string)
    returns (matched: Value)
    ensures matched == FirstMatch(render, items, key, val)
  {
    matched := Null;
    for k := 0 to |items|
      invariant FirstMatch(render, items[k..], key, val) == FirstMatch(render, items, key, val)
    {
      assert items[k..][1..] == items[k + 1..];
      var item := items[k];
      if !item.Obj? || key !in item.fields {
        continue;
      }
      if Sprint(render, item.fields[key]) == val {
        return item;
      }
    }
  }
}
