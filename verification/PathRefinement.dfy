/**
 The string interpreter computes the structural meaning: printing any well-formed path and
 resolving the text gives what the evaluator gives, wildcard re-parsing included.
 */
module PathRefinement {
  import opened Text
  import opened Decimal
  import opened Json
  import opened PathSplit
  import opened PathResolve
  import opened PathSyntax

  // -----------------------------------------------------------------------------------
  // Printed parts are separable

  /** Balanced text with no separating dot. */
  predicate Solid(s: string) { DotFree(s, 0) && DepthAfter(s, 0) == 0 }

  lemma SolidConcat(a: string, b: string)
    requires Solid(a) && Solid(b)
    ensures Solid(a + b)
  {
    DepthConcat(a, b, 0);
    DotFreeConcat(a, b, 0);
  }

  lemma SolidBracketed(inner: string)
    requires NoBrackets(inner)
    ensures Solid("[" + inner + "]")
  {
    BracketFree(inner, 1);
    DepthConcat(inner, "]", 1);
    DotFreeConcat(inner, "]", 1);
    var s := "[" + inner + "]";
    assert s[1..] == inner + "]";
    assert DepthAfter("]", 1) == DepthAfter("", 0);
    assert DotFree("]", 1) == DotFree("", 0);
  }

  lemma ConditionPlain(key: string, open: string, val: string, close: string)
    requires NoBrackets(key) && NoBrackets(val) && AllQuotes(open) && AllQuotes(close)
    ensures NoBrackets(PrintCondition(key, open, val, close))
  {
  }

  lemma FilterPlain(b: Bracket)
    requires IsFilter(b) && WellFormedBracket(b)
    ensures NoBrackets(ConditionOf(b))
  {
    if b.Select? {
      ConditionPlain(b.key, b.open, b.val, b.close);
    }
  }

  lemma SolidFilter(condition: string)
    requires NoBrackets(condition)
    ensures Solid(PrintFilter(condition))
  {
    var inner := "?(@." + condition + ")";
    SolidBracketed(inner);
    assert FILTER_OPEN + (condition + ")]") == "[" + inner + "]";
  }

  lemma SolidBracket(b: Bracket)
    requires WellFormedBracket(b)
    ensures Solid(PrintBracket(b))
  {
    match b {
      case Index(n) => SolidBracketed(PrintInt(n));
      case Star => SolidBracketed("*"); assert "[" + "*" + "]" == "[*]";
      case _ =>
        FilterPlain(b);
        SolidFilter(ConditionOf(b));
    }
  }

  lemma {:induction false} SolidBrackets(bs: seq<Bracket>)
    requires WellFormedBrackets(bs)
    ensures Solid(PrintBrackets(bs))
    decreases |bs|
  {
    if bs != [] {
      assert bs[0] in bs && forall b :: b in bs[1..] ==> b in bs;
      SolidBracket(bs[0]);
      SolidBrackets(bs[1..]);
      SolidConcat(PrintBracket(bs[0]), PrintBrackets(bs[1..]));
    }
  }

  lemma SolidPart(part: Part)
    requires WellFormedPart(part)
    ensures Solid(PrintPart(part)) && PrintPart(part) != ""
  {
    BracketFree(part.name, 0);
    if part.Chain? {
      SolidBrackets(part.brackets);
      SolidConcat(part.name, PrintBrackets(part.brackets));
    }
  }

  lemma {:induction false} PartsSeparable(p: seq<Part>)
    requires WellFormed(p)
    ensures Separable(PrintParts(p))
  {
    if p != [] {
      SolidPart(p[0]);
      PartsSeparable(p[1..]);
    }
  }

  // -----------------------------------------------------------------------------------
  // The text of a path never starts with "$."

  lemma NoRootPrefix(parts: seq<string>)
    requires parts != [] ==> parts[0] != "" && parts[0] != "$" && parts[0][0] != '.' && !("$." <= parts[0])
    ensures StripRoot(Join(parts)) == Join(parts)
    ensures TrimDot(Join(parts)) == Join(parts)
  {
    if parts != [] {
      var s := Join(parts);
      assert s[0] == parts[0][0];
      if |parts[0]| > 1 {
        assert s[1] == parts[0][1];
      }
    }
  }

  lemma PartStart(part: Part)
    requires WellFormedPart(part)
    ensures var s := PrintPart(part); s != "" && s != "$" && s[0] != '.' && !("$." <= s)
  {
    var s := PrintPart(part);
    SolidPart(part);
    if |s| > 1 {
      match part {
        case Field(name) => assert s[1] in name;
        case Chain(name, bs) => assert if |name| <= 1 then s[|name|] == '[' else s[1] == name[1] && name[1] in name;
      }
    }
  }

  /** Resolving printed text is resolving the printed parts. */
  lemma ResolvePrinted(render: Value -> string, p: seq<Part>, v: Value)
    requires WellFormed(p)
    ensures Resolve(render, Print(p), v) == ResolveParts(render, PrintParts(p), v)
    ensures TrimDot(Print(p)) == Print(p)
  {
    if p != [] {
      PartStart(p[0]);
    }
    NoRootPrefix(PrintParts(p));
    PartsSeparable(p);
    SplitJoin(PrintParts(p));
  }

  /** The text "$." in front changes nothing. */
  lemma ResolveRooted(render: Value -> string, p: seq<Part>, v: Value)
    requires WellFormed(p)
    ensures Resolve(render, "$." + Print(p), v) == ResolveParts(render, PrintParts(p), v)
  {
    assert ("$." + Print(p))[2..] == Print(p);
    PartsSeparable(p);
    SplitJoin(PrintParts(p));
  }

  // -----------------------------------------------------------------------------------
  // Reading one part back

  function BracketText(b: Bracket): (s: string)
    ensures PrintBracket(b) == "[" + s + "]"
  {
    match b
    case Index(n) => PrintInt(n)
    case Star => assert "[*]" == "[" + "*" + "]"; "*"
    case _ => FilterText(ConditionOf(b)); "?(@." + ConditionOf(b) + ")"
  }

  lemma FilterText(condition: string)
    ensures PrintFilter(condition) == "[" + ("?(@." + condition + ")") + "]"
  {
  }

  lemma BracketTextPlain(b: Bracket)
    requires WellFormedBracket(b)
    ensures var s := BracketText(b); s != "" && ']' !in s && (b.Star? <==> s == "*") && (IsFilter(b) <==> s[0] == '?')
  {
    if IsFilter(b) {
      FilterPlain(b);
    } else {
      assert BracketText(b)[0] in BracketText(b);
    }
  }

  /** Bracketed text followed by s: where the bracket closes and what is left. */
  lemma CloseBracket(inner: string, s: string)
    requires ']' !in inner
    ensures var t := "[" + inner + "]" + s;
            t[0] == '[' && IndexChar(t, ']') == |inner| + 1 && |t| == |inner| + 2 + |s| &&
            t[1..|inner| + 1] == inner && t[|inner| + 2..] == s
  {
    Assoc("[" + inner, "]", s);
    IndexCharAfter("[" + inner, "]" + s, ']');
  }

  lemma ReadBracket(b: Bracket, s: string)
    requires WellFormedBracket(b)
    ensures var t := PrintBracket(b) + s;
            var inner := BracketText(b);
            t[0] == '[' && IndexChar(t, ']') == |inner| + 1 && |t| == |inner| + 2 + |s| &&
            t[1..|inner| + 1] == inner && t[|inner| + 2..] == s
  {
    BracketTextPlain(b);
    CloseBracket(BracketText(b), s);
  }

  /** Only a filter starts like one. */
  lemma FilterStart(b: Bracket, s: string)
    requires WellFormedBracket(b)
    ensures FILTER_OPEN <= PrintBracket(b) + s <==> IsFilter(b)
  {
    if IsFilter(b) {
      Assoc(FILTER_OPEN, ConditionOf(b) + ")]", s);
    } else {
      BracketTextPlain(b);
      SecondCharacter(BracketText(b), s);
    }
  }

  lemma SecondCharacter(inner: string, s: string)
    requires inner != "" && inner[0] != '?'
    ensures !(FILTER_OPEN <= "[" + inner + "]" + s)
  {
    assert ("[" + inner + "]" + s)[1] == inner[0];
    assert FILTER_OPEN[1] == '?';
  }

  lemma {:induction false} TrimOpening(open: string, s: string)
    requires AllQuotes(open)
    ensures TrimQuotesLeft(open + s) == TrimQuotesLeft(s)
    decreases |open|
  {
    if open == "" {
      Unit(s);
    } else {
      TailOfConcat(open, s);
      TrimOpening(open[1..], s);
    }
  }

  lemma {:induction false} TrimClosing(s: string, close: string)
    requires AllQuotes(close)
    ensures TrimQuotesRight(s + close) == TrimQuotesRight(s)
    decreases |close|
  {
    if close == "" {
      Unit(s);
    } else {
      var init, last := close[..|close| - 1], close[|close| - 1];
      Unsnoc(close);
      Assoc(s, init, [last]);
      assert (s + close)[..|s + close| - 1] == s + init;
      TrimClosing(s, init);
    }
  }

  lemma TrimQuoted(open: string, val: string, close: string)
    requires AllQuotes(open) && WellFormedValue(val) && AllQuotes(close)
    ensures TrimQuotes(open + (val + close)) == val
  {
    TrimOpening(open, val + close);
    if val == "" {
      Unit(close);
      TrimOpening(close, "");
      Unit(close);
    } else {
      assert TrimQuotesLeft(val + close) == val + close;
      TrimClosing(val, close);
    }
  }

  /** The "==" found first is the one that separates key and value. */
  lemma SplitCondition(key: string, open: string, val: string, close: string)
    requires WellFormedKey(key)
    ensures IndexOf(PrintCondition(key, open, val, close), "==") == |key|
  {
    var s := PrintCondition(key, open, val, close);
    assert s[|key|..|key| + 2] == "==";
    forall j | 0 <= j < |key|
      ensures !OccursAt(s, "==", j)
    {
      if j + 2 <= |key| {
        assert s[j..j + 2] == key[j..j + 2];
        assert !OccursAt(key, "==", j);
      } else {
        assert s[j..j + 2][0] == key[|key| - 1];
      }
    }
    FirstOccurrence(s, "==", |key|);
  }

  /** The ")]" found first is the one that closes the filter. */
  lemma CloseFilter(inner: string)
    requires NoBrackets(inner)
    ensures IndexOf(FILTER_OPEN + (inner + ")]"), ")]") == 5 + |inner|
  {
    var s := FILTER_OPEN + (inner + ")]");
    assert s[5 + |inner|..5 + |inner| + 2] == ")]";
    forall j | 0 <= j < 5 + |inner|
      ensures !OccursAt(s, ")]", j)
    {
      assert s[j + 1] == s[j..j + 2][1];
      if j + 1 < 5 {
        assert s[j + 1] == FILTER_OPEN[j + 1];
      } else if j + 1 < 5 + |inner| {
        assert s[j + 1] == inner[j + 1 - 5];
      }
    }
    FirstOccurrence(s, ")]", 5 + |inner|);
  }

  /** Text that follows does not move the first occurrence. */
  lemma IndexOfWithSuffix(s: string, suffix: string, p: string)
    requires IndexOf(s, p) >= 0
    ensures IndexOf(s + suffix, p) == IndexOf(s, p)
  {
    var i := IndexOf(s, p);
    assert (s + suffix)[i..i + |p|] == s[i..i + |p|];
    forall j | 0 <= j < i
      ensures !OccursAt(s + suffix, p, j)
    {
      assert (s + suffix)[j..j + |p|] == s[j..j + |p|];
      assert !OccursAt(s, p, j);
    }
    FirstOccurrence(s + suffix, p, i);
  }

  /** The condition and the text behind the filter, as the interpreter slices them out. */
  lemma SliceFilter(inner: string, suffix: string)
    requires NoBrackets(inner)
    ensures var rest := FILTER_OPEN + (inner + ")]") + suffix;
            FILTER_OPEN <= rest && IndexOf(rest, ")]") == 5 + |inner| && |rest| == 7 + |inner| + |suffix| &&
            rest[5..5 + |inner|] == inner && rest[7 + |inner|..] == suffix
  {
    CloseFilter(inner);
    IndexOfWithSuffix(FILTER_OPEN + (inner + ")]"), suffix, ")]");
  }

  lemma SliceCondition(key: string, open: string, val: string, close: string)
    requires WellFormedKey(key) && WellFormedValue(val) && AllQuotes(open) && AllQuotes(close)
    ensures var expr := PrintCondition(key, open, val, close);
            NoBrackets(expr) && IndexOf(expr, "==") == |key| && |key| + 2 <= |expr| &&
            expr[..|key|] == key && TrimQuotes(expr[|key| + 2..]) == val
  {
    var expr := PrintCondition(key, open, val, close);
    ConditionPlain(key, open, val, close);
    SplitCondition(key, open, val, close);
    assert expr[|key| + 2..] == open + (val + close);
    TrimQuoted(open, val, close);
  }

  lemma ReadCondition(key: string, open: string, val: string, close: string, suffix: string)
    requires WellFormedKey(key) && WellFormedValue(val) && AllQuotes(open) && AllQuotes(close)
    ensures FILTER_OPEN <= PrintFilter(PrintCondition(key, open, val, close)) + suffix
    ensures ParseFilter(PrintFilter(PrintCondition(key, open, val, close)) + suffix) == Condition(key, val, suffix)
  {
    SliceCondition(key, open, val, close);
    SliceFilter(PrintCondition(key, open, val, close), suffix);
  }

  lemma {:induction false} TrimmedRight(s: string)
    ensures var r := TrimQuotesRight(s); r <= s && (r != "" ==> !IsQuoteMark(r[|r| - 1]))
    decreases |s|
  {
    if s != "" && IsQuoteMark(s[|s| - 1]) {
      TrimmedRight(s[..|s| - 1]);
    }
  }

  lemma {:induction false} TrimmedLeft(s: string)
    ensures var r := TrimQuotesLeft(s); r != "" ==> !IsQuoteMark(r[0])
    decreases |s|
  {
    if s != "" && IsQuoteMark(s[0]) {
      TrimmedLeft(s[1..]);
    }
  }

  lemma EarlyEquals(key: string, open: string, val: string, close: string)
    requires NoBrackets(key) && !WellFormedKey(key)
    ensures 0 <= IndexOf(PrintCondition(key, open, val, close), "==") < |key|
  {
    var s := PrintCondition(key, open, val, close);
    if IndexOf(key, "==") >= 0 {
      var j := IndexOf(key, "==");
      assert s[j..j + 2] == key[j..j + 2];
      assert OccursAt(s, "==", j);
    } else {
      assert s[|key| - 1..|key| + 1] == "==";
      assert OccursAt(s, "==", |key| - 1);
    }
  }

  /**
   Which filters can be written down: the condition is read back as written exactly when the
   key neither holds "==" nor ends in "=", and the value neither starts nor ends with a quote.
   */
  lemma FilterTextExact(key: string, open: string, val: string, close: string)
    requires NoBrackets(key) && NoBrackets(val) && AllQuotes(open) && AllQuotes(close)
    ensures FILTER_OPEN <= PrintFilter(PrintCondition(key, open, val, close))
    ensures ParseFilter(PrintFilter(PrintCondition(key, open, val, close))) == Condition(key, val, "")
            <==> WellFormedKey(key) && WellFormedValue(val)
  {
    var expr := PrintCondition(key, open, val, close);
    ConditionPlain(key, open, val, close);
    if !WellFormedKey(key) {
      EarlyEquals(key, open, val, close);
      ParseExpression(expr);
    } else {
      SplitCondition(key, open, val, close);
      ParseExpression(expr);
      if WellFormedValue(val) {
        ReadCondition(key, open, val, close, "");
        Unit(PrintFilter(expr));
      } else {
        TrimmedHasNoEndQuotes(expr[|key| + 2..]);
      }
    }
  }

  /** Every text without brackets is the condition of a well-formed filter. */
  lemma EveryConditionIsCovered(condition: string) returns (b: Bracket)
    requires NoBrackets(condition)
    ensures IsFilter(b) && WellFormedBracket(b) && ConditionOf(b) == condition
  {
    var eq := IndexOf(condition, "==");
    if eq < 0 {
      b := Unreadable(condition);
    } else {
      var key, quoted := condition[..eq], condition[eq + 2..];
      KeyBeforeEquals(condition, eq);
      var open, val, close := TakeQuotesApart(quoted);
      b := Select(key, open, val, close);
      assert condition[eq..eq + 2] == "==";
      assert condition == key + (condition[eq..eq + 2] + quoted);
      assert NoBrackets(val) by {
        assert forall c :: c in val ==> c in quoted;
        assert forall c :: c in quoted ==> c in condition;
      }
    }
  }

  lemma PrefixOccurs(s: string, end: nat, p: string, j: int)
    requires end <= |s| && OccursAt(s[..end], p, j)
    ensures OccursAt(s, p, j)
  {
    assert s[..end][j..j + |p|] == s[j..j + |p|];
  }

  lemma EqualsMeaning(s: string, i: int)
    ensures OccursAt(s, "==", i) <==> 0 <= i && i + 2 <= |s| && s[i] == '=' && s[i + 1] == '='
  {
    if 0 <= i && i + 2 <= |s| {
      assert s[i..i + 2] == [s[i], s[i + 1]];
    }
  }

  lemma KeyBeforeEquals(condition: string, eq: nat)
    requires NoBrackets(condition) && eq == IndexOf(condition, "==")
    ensures WellFormedKey(condition[..eq])
  {
    var key := condition[..eq];
    assert forall c :: c in key ==> c in condition;
    EqualsMeaning(condition, eq);
    EqualsMeaning(condition, eq - 1);
    var j := IndexOf(key, "==");
    if j >= 0 {
      PrefixOccurs(condition, eq, "==", j);
      EqualsMeaning(key, j);
    }
  }

  lemma {:induction false} TakeQuotesApart(s: string) returns (open: string, val: string, close: string)
    ensures s == open + (val + close) && AllQuotes(open) && AllQuotes(close)
    ensures val != "" ==> !IsQuoteMark(val[0]) && !IsQuoteMark(val[|val| - 1])
    decreases |s|
  {
    if s != "" && IsQuoteMark(s[0]) {
      open, val, close := TakeQuotesApart(s[1..]);
      Recons(s);
      Assoc([s[0]], open, val + close);
      open := [s[0]] + open;
    } else if s != "" && IsQuoteMark(s[|s| - 1]) {
      var last := s[|s| - 1];
      open, val, close := TakeQuotesApart(s[..|s| - 1]);
      Unsnoc(s);
      Assoc(open, val + close, [last]);
      Assoc(val, close, [last]);
      close := close + [last];
    } else {
      open, val, close := "", s, "";
    }
  }

  lemma TrimmedHasNoEndQuotes(s: string)
    ensures var r := TrimQuotes(s); r != "" ==> !IsQuoteMark(r[0]) && !IsQuoteMark(r[|r| - 1])
  {
    TrimmedLeft(s);
    TrimmedRight(TrimQuotesLeft(s));
  }

  lemma ParseExpression(expr: string)
    requires NoBrackets(expr) && IndexOf(expr, "==") >= 0
    ensures FILTER_OPEN <= PrintFilter(expr)
    ensures var eq := IndexOf(expr, "==");
            ParseFilter(PrintFilter(expr)) == Condition(expr[..eq], TrimQuotes(expr[eq + 2..]), "")
  {
    Unit(PrintFilter(expr));
    SliceFilter(expr, "");
  }

  /** A filter where it opens; brackets behind it are not looked at. */
  lemma ReadFilter(render: Value -> string, b: Bracket, behind: seq<Bracket>, tail: seq<string>, v: Value)
    requires IsFilter(b) && WellFormedBracket(b)
    ensures FILTER_OPEN <= PrintBracket(b) + PrintBrackets(behind)
    ensures ResolveFilter(render, PrintBracket(b) + PrintBrackets(behind), tail, v)
            == if b.Select? && v.Arr? then ResolveParts(render, tail, FirstMatch(render, v.items, b.key, b.val))
               else Err
  {
    var suffix := PrintBrackets(behind);
    FilterStart(b, suffix);
    if b.Select? {
      ReadCondition(b.key, b.open, b.val, b.close, suffix);
    } else {
      SliceFilter(b.condition, suffix);
    }
  }

  /** A name, then text that starts with a bracket. */
  lemma ReadName(name: string, rest: string)
    requires PlainName(name) && rest != "" && rest[0] == '['
    ensures IndexChar(name + rest, '[') == |name|
    ensures (name + rest)[..|name|] == name && (name + rest)[|name|..] == rest
  {
    IndexCharAfter(name, rest, '[');
  }

  lemma ReadFieldPart(render: Value -> string, name: string, tail: seq<string>, v: Value)
    requires PlainName(name) && name != ""
    ensures ResolveParts(render, [name] + tail, v)
            == if !v.Obj? then Err
               else if name !in v.fields then Ok(Null)
               else ResolveParts(render, tail, v.fields[name])
  {
    assert ([name] + tail)[1..] == tail;
  }

  /** Brackets, where a filter may open them. */
  function ResolveOpening(render: Value -> string, rest: string, tail: seq<string>, v: Value): Outcome {
    if FILTER_OPEN <= rest then ResolveFilter(render, rest, tail, v) else ResolveIndexes(render, rest, tail, v)
  }

  lemma ReadChainPart(render: Value -> string, name: string, bs: seq<Bracket>, tail: seq<string>, v: Value)
    requires PlainName(name) && bs != []
    ensures ResolveParts(render, [name + PrintBrackets(bs)] + tail, v)
            == if name != "" && !v.Obj? then Err else ResolveOpening(render, PrintBrackets(bs), tail, Base(name, v))
  {
    assert ([name + PrintBrackets(bs)] + tail)[1..] == tail;
    ReadName(name, PrintBrackets(bs));
  }

  /** A filter is no index, and what is no index is an error. */
  lemma FilterIsNoIndex(render: Value -> string, b: Bracket, later: string, tail: seq<string>, v: Value)
    requires IsFilter(b) && WellFormedBracket(b)
    ensures ResolveIndexes(render, PrintBracket(b) + later, tail, v) == Err
  {
    ReadBracket(b, later);
    BracketTextPlain(b);
    MarkIsNoNumber(BracketText(b));
  }

  lemma MarkIsNoNumber(s: string)
    requires s != "" && s[0] == '?'
    ensures Atoi(s).None? && s != "*"
  {
    assert !IsDigit(s[0]);
  }

  lemma ReadIndex(render: Value -> string, n: int, later: string, tail: seq<string>, v: Value)
    requires FitsInt64(n)
    ensures ResolveIndexes(render, PrintBracket(Index(n)) + later, tail, v)
      == if v.Arr? && 0 <= n < |v.items| then ResolveIndexes(render, later, tail, v.items[n]) else Err
  {
    ReadBracket(Index(n), later);
    BracketTextPlain(Index(n));
    AtoiPrint(n);
  }

  lemma ReadStar(render: Value -> string, later: string, tail: seq<string>, v: Value)
    ensures ResolveIndexes(render, PrintBracket(Star) + later, tail, v)
      == if v.Arr? then Ok(Arr(Collect(render, Remaining(later, tail), v.items))) else Err
  {
    ReadBracket(Star, later);
    BracketTextPlain(Star);
  }

  // -----------------------------------------------------------------------------------
  // Refinement, by induction over the path

  lemma {:induction false} PartsRefine(render: Value -> string, p: seq<Part>, v: Value)
    requires WellFormed(p)
    ensures ResolveParts(render, PrintParts(p), v) == Eval(render, p, v)
    decreases |p|, 0, 0
  {
    if p != [] {
      match p[0] {
        case Field(name) =>
          ReadFieldPart(render, name, PrintParts(p[1..]), v);
          if v.Obj? && name in v.fields {
            PartsRefine(render, p[1..], v.fields[name]);
          }
        case Chain(name, bs) =>
          ReadChainPart(render, name, bs, PrintParts(p[1..]), v);
          OpeningRefines(render, bs, p[1..], Base(name, v));
      }
    }
  }

  /** Brackets that open: a filter among them is understood only in the first place. */
  lemma {:induction false} OpeningRefines(render: Value -> string, bs: seq<Bracket>, tail: seq<Part>, v: Value)
    requires WellFormed(tail) && WellFormedBrackets(bs)
    ensures bs == [] ==> ResolveParts(render, PrintParts(tail), v) == EvalChain(render, true, bs, tail, v)
    ensures bs != [] ==>
      ResolveOpening(render, PrintBrackets(bs), PrintParts(tail), v) == EvalChain(render, true, bs, tail, v)
    decreases |tail|, |bs| + 1, 1
  {
    if bs == [] {
      PartsRefine(render, tail, v);
    } else {
      assert bs[0] in bs;
      FilterStart(bs[0], PrintBrackets(bs[1..]));
      if IsFilter(bs[0]) {
        ReadFilter(render, bs[0], bs[1..], PrintParts(tail), v);
        if bs[0].Select? && v.Arr? {
          PartsRefine(render, tail, FirstMatch(render, v.items, bs[0].key, bs[0].val));
        }
      } else {
        ChainRefines(render, bs, tail, v);
      }
    }
  }

  /** Brackets behind an index, or that do not start with a filter. */
  lemma {:induction false} ChainRefines(render: Value -> string, bs: seq<Bracket>, tail: seq<Part>, v: Value)
    requires WellFormed(tail) && WellFormedBrackets(bs)
    ensures ResolveIndexes(render, PrintBrackets(bs), PrintParts(tail), v) == EvalChain(render, false, bs, tail, v)
    ensures bs != [] && !IsFilter(bs[0]) ==>
      ResolveIndexes(render, PrintBrackets(bs), PrintParts(tail), v) == EvalChain(render, true, bs, tail, v)
    decreases |tail|, |bs| + 1, 0
  {
    if bs == [] {
      PartsRefine(render, tail, v);
    } else {
      assert bs[0] in bs && forall b :: b in bs[1..] ==> b in bs;
      var later := PrintBrackets(bs[1..]);
      match bs[0] {
        case Index(n) =>
          ReadIndex(render, n, later, PrintParts(tail), v);
          if v.Arr? && 0 <= n < |v.items| {
            ChainRefines(render, bs[1..], tail, v.items[n]);
          }
        case Star =>
          ReadStar(render, later, PrintParts(tail), v);
          if v.Arr? {
            EachRefines(render, bs[1..], tail, v.items);
          }
        case _ => FilterIsNoIndex(render, bs[0], later, PrintParts(tail), v);
      }
    }
  }

  /** What a wildcard has left of a path: unread brackets, which open now, and the parts behind. */
  function Unread(bs: seq<Bracket>, tail: seq<Part>): seq<Part> {
    if bs == [] then tail else [Chain("", bs)] + tail
  }

  lemma UnreadText(bs: seq<Bracket>, tail: seq<Part>)
    requires WellFormed(tail) && WellFormedBrackets(bs)
    ensures WellFormed(Unread(bs, tail))
    ensures PrintParts(Unread(bs, tail))
      == if bs == [] then PrintParts(tail) else [PrintBrackets(bs)] + PrintParts(tail)
  {
    if bs != [] {
      Uncons(Chain("", bs), tail);
      Unit(PrintBrackets(bs));
    }
  }

  /** The re-joined text of a wildcard, split again, is what was left of the path, a filter included. */
  lemma RemainingRefines(render: Value -> string, bs: seq<Bracket>, tail: seq<Part>, item: Value)
    requires WellFormed(tail) && WellFormedBrackets(bs)
    requires bs != [] || tail != []
    ensures var path := Remaining(PrintBrackets(bs), PrintParts(tail));
            path != "" && path == Print(Unread(bs, tail)) &&
            Resolve(render, path, item) == ResolveParts(render, PrintParts(Unread(bs, tail)), item)
  {
    var p := Unread(bs, tail);
    UnreadText(bs, tail);
    ResolvePrinted(render, p, item);
    SolidPart(p[0]);
  }

  lemma {:induction false} EachRefines(render: Value -> string, bs: seq<Bracket>, tail: seq<Part>, items: seq<Value>)
    requires WellFormed(tail) && WellFormedBrackets(bs)
    ensures Collect(render, Remaining(PrintBrackets(bs), PrintParts(tail)), items)
            == if bs == [] && tail == [] then items else EvalEach(render, bs, tail, items)
    decreases |tail|, |bs| + 1, |items| + 1
  {
    if items != [] {
      EachRefines(render, bs, tail, items[1..]);
      if bs != [] || tail != [] {
        RemainingRefines(render, bs, tail, items[0]);
        OpeningRefines(render, bs, tail, items[0]);
        if bs != [] {
          UnreadText(bs, tail);
          Unit(PrintBrackets(bs));
          ReadChainPart(render, "", bs, PrintParts(tail), items[0]);
        }
      } else {
        Recons(items);
      }
    }
  }

  /**
   The main result: for every well-formed path, with or without "$." in front, and every
   document, the interpreter's outcome is the evaluator's.
   */
  lemma ResolveRefinesEval(render: Value -> string, p: seq<Part>, data: Value)
    requires WellFormed(p)
    ensures Resolve(render, Print(p), data) == Eval(render, p, data)
    ensures Resolve(render, "$." + Print(p), data) == Eval(render, p, data)
  {
    ResolvePrinted(render, p, data);
    ResolveRooted(render, p, data);
    PartsRefine(render, p, data);
  }
}
