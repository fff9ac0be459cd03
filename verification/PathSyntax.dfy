/**
 The path language as a reader of its documentation sees it (docs/test-case-reference.md,
 "JSONPath Syntax"): an abstract syntax, its concrete text, and a structural meaning that
 never looks at text.
 */
module PathSyntax {
  import opened Text
  import opened Decimal
  import opened Json
  import opened PathResolve

  /**
   An index, a wildcard, a filter [?(@.key=='val')] with whatever quotes around the value, or
   a filter whose condition has no "==".
   */
  datatype Bracket =
    | Index(n: int)
    | Star
    | Select(key: string, open: string, val: string, close: string)
    | Unreadable(condition: string)

  /** name, or name and brackets; the name may be empty before a bracket. */
  datatype Part = Field(name: string) | Chain(name: string, brackets: seq<Bracket>)

  predicate IsFilter(b: Bracket) { b.Select? || b.Unreadable? }

  // -----------------------------------------------------------------------------------
  // Text

  /** The text between the opening of a filter and its closing ")]". */
  function PrintCondition(key: string, open: string, val: string, close: string): string {
    key + ("==" + (open + (val + close)))
  }

  function PrintFilter(condition: string): string { FILTER_OPEN + (condition + ")]") }

  function ConditionOf(b: Bracket): string
    requires IsFilter(b)
  {
    match b
    case Select(key, open, val, close) => PrintCondition(key, open, val, close)
    case Unreadable(condition) => condition
  }

  function PrintBracket(b: Bracket): string {
    match b
    case Index(n) => "[" + PrintInt(n) + "]"
    case Star => "[*]"
    case _ => PrintFilter(ConditionOf(b))
  }

  function PrintBrackets(bs: seq<Bracket>): (s: string)
    ensures s == "" <==> bs == []
    ensures bs != [] ==> s[0] == '['
  {
    if bs == [] then "" else PrintBracket(bs[0]) + PrintBrackets(bs[1..])
  }

  function PrintPart(part: Part): string {
    match part
    case Field(name) => name
    case Chain(name, bs) => name + PrintBrackets(bs)
  }

  function PrintParts(p: seq<Part>): (parts: seq<string>)
    ensures |parts| == |p|
  {
    if p == [] then [] else [PrintPart(p[0])] + PrintParts(p[1..])
  }

  /** The path as written in a test case, without the leading "$.". */
  function Print(p: seq<Part>): string {
    Join(PrintParts(p))
  }

  // -----------------------------------------------------------------------------------
  // Well-formedness

  predicate NoBrackets(s: string) { '[' !in s && ']' !in s }

  predicate PlainName(s: string) { NoBrackets(s) && '.' !in s }

  predicate AllQuotes(s: string) { forall i :: 0 <= i < |s| ==> IsQuoteMark(s[i]) }

  /** The key can be told from the "==" that follows it. */
  predicate WellFormedKey(key: string) {
    NoBrackets(key) && IndexOf(key, "==") < 0 && (key != "" ==> key[|key| - 1] != '=')
  }

  predicate WellFormedValue(val: string) {
    NoBrackets(val) && (val != "" ==> !IsQuoteMark(val[0]) && !IsQuoteMark(val[|val| - 1]))
  }

  predicate WellFormedBracket(b: Bracket) {
    match b
    case Index(n) => FitsInt64(n)
    case Star => true
    case Select(key, open, val, close) =>
      WellFormedKey(key) && AllQuotes(open) && WellFormedValue(val) && AllQuotes(close)
    case Unreadable(condition) => NoBrackets(condition) && IndexOf(condition, "==") < 0
  }

  predicate WellFormedBrackets(bs: seq<Bracket>) { forall b :: b in bs ==> WellFormedBracket(b) }

  predicate WellFormedPart(part: Part) {
    match part
    case Field(name) => PlainName(name) && name != "" && name != "$"
    case Chain(name, bs) => PlainName(name) && bs != [] && WellFormedBrackets(bs)
  }

  predicate WellFormed(p: seq<Part>) {
    forall i :: 0 <= i < |p| ==> WellFormedPart(p[i])
  }

  // -----------------------------------------------------------------------------------
  // Meaning

  /** What the path denotes in the document v. A missing plain field ends the walk with nil. */
  function Eval(render: Value -> string, p: seq<Part>, v: Value): Outcome
    decreases |p|, 0, 0
  {
    if p == [] then Ok(v)
    else
      match p[0]
      case Field(name) =>
        if !v.Obj? then Err
        else if name !in v.fields then Ok(Null)
        else Eval(render, p[1..], v.fields[name])
      case Chain(name, bs) =>
        if name != "" && !v.Obj? then Err
        else EvalChain(render, true, bs, p[1..], Base(name, v))
  }

  /** The value the brackets of a part look at: the named field, or the value itself. */
  function Base(name: string, v: Value): Value {
    if name == "" then v else if v.Obj? then Lookup(v.fields, name) else Null
  }

  /**
   Brackets, then the rest of the path. A wildcard runs all that follows it on each item. A
   filter is understood only where it opens: at the start of the brackets of a part, or of
   what a wildcard runs on each item. Brackets behind it have no effect; a filter that stands
   behind an index is an error.
   */
  function EvalChain(render: Value -> string, opens: bool, bs: seq<Bracket>, tail: seq<Part>, v: Value): Outcome
    decreases |tail|, |bs| + 1, 0
  {
    if bs == [] then Eval(render, tail, v)
    else if !v.Arr? then Err
    else
      match bs[0]
      case Index(n) =>
        if 0 <= n < |v.items| then EvalChain(render, false, bs[1..], tail, v.items[n]) else Err
      case Star =>
        if bs[1..] == [] && tail == [] then Ok(v)
        else Ok(Arr(EvalEach(render, bs[1..], tail, v.items)))
      case Select(key, _, val, _) =>
        if opens then Eval(render, tail, FirstMatch(render, v.items, key, val)) else Err
      case Unreadable(_) => Err
  }

  /** In order, the results that are neither errors nor nil. */
  function EvalEach(render: Value -> string, bs: seq<Bracket>, tail: seq<Part>, items: seq<Value>): seq<Value>
    decreases |tail|, |bs| + 1, |items| + 1
  {
    if items == [] then []
    else
      var r := EvalChain(render, true, bs, tail, items[0]);
      (if r.Ok? && !r.value.Null? then [r.value] else []) + EvalEach(render, bs, tail, items[1..])
  }
}
