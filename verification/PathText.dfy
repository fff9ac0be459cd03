/**
 Filters as they are written in test cases, character by character: the quotes around the
 value, and what a filter finds.
 */
module PathText {
  import opened Text
  import opened Json
  import opened PathResolve
  import opened PathSyntax
  import opened PathRefinement
  import opened PathLaws

  /** The quotes around the value of a filter. */
  predicate Quotes(q: string) { q == "'" || q == "\"" || q == "" }

  /** A value that neither starts nor ends with a quote, of whatever kind. */
  predicate Unquoted(val: string) {
    '[' !in val && ']' !in val &&
    (val != "" ==> val[0] != '\'' && val[0] != '\"' && val[|val| - 1] != '\'' && val[|val| - 1] != '\"')
  }

  function FilterText(key: string, q: string, val: string): string {
    "[?(@." + ((key + ("==" + (q + (val + q)))) + ")]")
  }

  lemma QuotedValue(q: string, val: string)
    requires Quotes(q) && Unquoted(val)
    ensures AllQuotes(q) && WellFormedValue(val)
  {
  }

  /** A filter is read as its key and its value, without single or double quotes around it. */
  lemma QuotesAreRead(key: string, q: string, val: string)
    requires WellFormedKey(key) && Quotes(q) && Unquoted(val)
    ensures FILTER_OPEN <= FilterText(key, q, val)
    ensures ParseFilter(FilterText(key, q, val)) == Condition(key, val, "")
  {
    QuotedValue(q, val);
    ReadCondition(key, q, val, q, "");
    Unit(FilterText(key, q, val));
  }

  /** What %v makes of a value. */
  predicate RenderedAs(render: Value -> string, v: Value, text: string) {
    match v case Str(s) => s == text case _ => render(v) == text
  }

  predicate Hit(render: Value -> string, item: Value, key: string, val: string) {
    item.Obj? && key in item.fields && RenderedAs(render, item.fields[key], val)
  }

  /** The first item that is an object whose field is rendered as the value, else nil. */
  ghost predicate Picked(render: Value -> string, items: seq<Value>, key: string, val: string, picked: Value) {
    (picked == Null && forall item :: item in items ==> !Hit(render, item, key, val)) ||
    (exists i :: 0 <= i < |items| && HitAt(render, items, key, val, i) && items[i] == picked)
  }

  ghost predicate HitAt(render: Value -> string, items: seq<Value>, key: string, val: string, i: nat)
    requires i < |items|
  {
    Hit(render, items[i], key, val) && forall j :: 0 <= j < i ==> !Hit(render, items[j], key, val)
  }

  lemma HitMeaning(render: Value -> string, item: Value, key: string, val: string)
    ensures Hit(render, item, key, val) <==> MatchesFilter(render, item, key, val)
  {
  }

  lemma FirstMatchIsPicked(render: Value -> string, items: seq<Value>, key: string, val: string)
    ensures Picked(render, items, key, val, FirstMatch(render, items, key, val))
  {
    forall item ensures Hit(render, item, key, val) <==> MatchesFilter(render, item, key, val) {
      HitMeaning(render, item, key, val);
    }
    var hit := FirstMatch(render, items, key, val);
    if !hit.Null? {
      var i: nat :| i < |items| && items[i] == hit && MatchesFilter(render, hit, key, val) &&
        forall j :: 0 <= j < i ==> !MatchesFilter(render, items[j], key, val);
      assert HitAt(render, items, key, val, i);
    }
  }

  lemma SelectPart(name: string, key: string, q: string, val: string)
    requires PlainName(name) && WellFormedKey(key) && Quotes(q) && Unquoted(val)
    ensures var part := Chain(name, [Select(key, q, val, q)]);
            WellFormedPart(part) && PrintPart(part) == name + FilterText(key, q, val)
  {
    QuotedValue(q, val);
    PrintBracketsOne(Select(key, q, val, q));
  }

  lemma EvalSelect(render: Value -> string, name: string, key: string, q: string, val: string, tail: seq<Part>,
      d: Value, list: Value)
    requires list == if name == "" then d else if d.Obj? && name in d.fields then d.fields[name] else Null
    ensures Eval(render, [Chain(name, [Select(key, q, val, q)])] + tail, d)
      == if list.Arr? then Eval(render, tail, FirstMatch(render, list.items, key, val)) else Err
  {
    Uncons(Chain(name, [Select(key, q, val, q)]), tail);
  }

  /**
   "name[?(@.key=='val')]", with either kind of quotes or none, takes the first object in the
   list whose key is rendered as the value, or nil; what follows goes on from there. Anything
   but a list is an error.
   */
  lemma FilterLaw(render: Value -> string, name: string, key: string, q: string, val: string, tail: seq<Part>,
      d: Value, list: Value)
    requires PlainName(name) && WellFormedKey(key) && Quotes(q) && Unquoted(val) && WellFormed(tail)
    requires list == if name == "" then d else if d.Obj? && name in d.fields then d.fields[name] else Null
    ensures var path := name + FilterText(key, q, val) + if tail == [] then "" else "." + Print(tail);
            var r := Resolve(render, path, d);
            if list.Arr? then
              exists picked :: Picked(render, list.items, key, val, picked) && r == Resolve(render, Print(tail), picked)
            else r == Err
  {
    var part := Chain(name, [Select(key, q, val, q)]);
    SelectPart(name, key, q, val);
    PrintOne(part);
    PrintFollowed([part], tail);
    Unit(Print([part]));
    Assoc(Print([part]), ".", Print(tail));
    WellFormedConcat([part], tail);
    ResolveRefinesEval(render, [part] + tail, d);
    EvalSelect(render, name, key, q, val, tail, d, list);
    if list.Arr? {
      FirstMatchIsPicked(render, list.items, key, val);
      ResolveRefinesEval(render, tail, FirstMatch(render, list.items, key, val));
    }
  }
}
