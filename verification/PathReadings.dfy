/**
 Two readings of paths given in docs/test-case-reference.md ("JSONPath Syntax"), as functions,
 and exactly when the interpreter agrees with them: $ as the root of the document, and a
 wildcard as flattening what it collects.
 */
module PathReadings {
  import opened Text
  import opened Json
  import opened PathSplit
  import opened PathResolve
  import opened PathSyntax
  import opened PathRefinement
  import opened PathLaws

  // -----------------------------------------------------------------------------------
  // $ as the root

  /** A path that starts at $: $ alone, "$." and a path, or $ and brackets. */
  datatype Rooted = Bare | Dotted(path: seq<Part>) | Bracketed(first: Part, tail: seq<Part>)

  predicate WellFormedRooted(r: Rooted) {
    match r
    case Bare => true
    case Dotted(p) => WellFormed(p)
    case Bracketed(first, tail) => WellFormedPart(first) && first.Chain? && first.name == "" && WellFormed(tail)
  }

  function RootedText(r: Rooted): string {
    match r
    case Bare => "$"
    case Dotted(p) => "$." + Print(p)
    case Bracketed(first, tail) => "$" + Print([first] + tail)
  }

  /** The documented meaning: what follows $, on the whole document. */
  function Documented(render: Value -> string, r: Rooted, d: Value): Outcome {
    match r
    case Bare => Ok(d)
    case Dotted(p) => Eval(render, p, d)
    case Bracketed(first, tail) => Eval(render, [first] + tail, d)
  }

  function Named(part: Part, name: string): Part
    requires part.Chain?
  {
    Chain(name, part.brackets)
  }

  lemma PrintNamedPart(first: Part, name: string)
    requires first.Chain? && first.name == ""
    ensures PrintPart(Named(first, name)) == name + PrintPart(first)
  {
    Unit(PrintBrackets(first.brackets));
  }

  lemma PrintFirst(part: Part, tail: seq<Part>)
    ensures Print([part] + tail) == if tail == [] then PrintPart(part) else PrintPart(part) + "." + Print(tail)
  {
    PrintOne(part);
    if tail == [] {
      Unit([part]);
    } else {
      PrintConcat([part], tail);
    }
  }

  lemma PrintNamed(first: Part, tail: seq<Part>)
    requires first.Chain? && first.name == ""
    ensures "$" + Print([first] + tail) == Print([Named(first, "$")] + tail)
  {
    PrintFirst(first, tail);
    PrintFirst(Named(first, "$"), tail);
    PrintNamedPart(first, "$");
    InFront("$", PrintPart(first), ".", Print(tail));
  }

  lemma InFront(a: string, b: string, c: string, d: string)
    ensures a + (b + c + d) == (a + b) + c + d
  {
  }

  lemma BareReadsField(render: Value -> string, d: Value)
    ensures Resolve(render, "$", d) == if d.Obj? then Ok(Lookup(d.fields, "$")) else Err
  {
    assert Join(["$"]) == "$";
    SplitJoin(["$"]);
    if d.Obj? && "$" in d.fields {
      assert ResolveParts(render, [], d.fields["$"]) == Ok(d.fields["$"]);
    }
  }

  lemma EvalNamed(render: Value -> string, first: Part, tail: seq<Part>, d: Value)
    requires first.Chain? && first.name == ""
    ensures Eval(render, [Named(first, "$")] + tail, d)
      == if d.Obj? then Eval(render, [first] + tail, Lookup(d.fields, "$")) else Err
  {
    Uncons(first, tail);
    Uncons(Named(first, "$"), tail);
  }

  /** Without a dot behind it, $ is a field name: the path reads that field of an object, and fails on anything else. */
  lemma DollarIsAField(render: Value -> string, r: Rooted, d: Value)
    requires WellFormedRooted(r) && !r.Dotted?
    ensures Resolve(render, RootedText(r), d)
      == if d.Obj? then Documented(render, r, Lookup(d.fields, "$")) else Err
  {
    match r {
      case Bare => BareReadsField(render, d);
      case Bracketed(first, tail) =>
        PrintNamed(first, tail);
        WellFormedConcat([Named(first, "$")], tail);
        ResolveRefinesEval(render, [Named(first, "$")] + tail, d);
        EvalNamed(render, first, tail, d);
    }
  }

  lemma NotItsOwnField(d: Value, key: string)
    requires d.Obj?
    ensures Lookup(d.fields, key) != d
  {
    if key in d.fields {
      assert Height(d.fields[key]) < Height(d);
    }
  }

  ghost function Height(v: Value): nat
    decreases v
  {
    match v
    case Obj(fields) => 1 + Highest(fields, fields.Keys)
    case _ => 0
  }

  ghost function Highest(fields: map<string, Value>, keys: set<string>): (h: nat)
    requires keys <= fields.Keys
    ensures forall k :: k in keys ==> Height(fields[k]) <= h
    decreases Obj(fields), 0, keys
  {
    if keys == {} then 0
    else
      var k :| k in keys;
      var rest := Highest(fields, keys - {k});
      if Height(fields[k]) > rest then Height(fields[k]) else rest
  }

  /**
   Where the documented reading yields a value at all, the interpreter agrees with it exactly
   when a dot follows the $.
   */
  lemma RootNeedsDot(render: Value -> string, r: Rooted, d: Value)
    requires WellFormedRooted(r) && Documented(render, r, d).Ok?
    ensures Resolve(render, RootedText(r), d) == Documented(render, r, d) <==> r.Dotted?
  {
    match r {
      case Dotted(p) => ResolveRefinesEval(render, p, d);
      case Bare =>
        DollarIsAField(render, r, d);
        if d.Obj? {
          NotItsOwnField(d, "$");
        }
      case Bracketed(first, tail) =>
        DollarIsAField(render, r, d);
        BracketNeedsArray(render, first, tail, d);
    }
  }

  lemma BracketNeedsArray(render: Value -> string, first: Part, tail: seq<Part>, d: Value)
    requires WellFormedPart(first) && first.Chain? && first.name == "" && Eval(render, [first] + tail, d).Ok?
    ensures d.Arr?
  {
    Uncons(first, tail);
    assert EvalChain(render, true, first.brackets, tail, d).Ok?;
  }

  // -----------------------------------------------------------------------------------
  // Wildcards as flattening

  /** One level of arrays spread out. */
  function Spread(rs: seq<Value>): seq<Value> {
    if rs == [] then [] else (if rs[0].Arr? then rs[0].items else [rs[0]]) + Spread(rs[1..])
  }

  /** What a path resolves to on each item, where it resolves at all. */
  function Successes(render: Value -> string, path: string, items: seq<Value>): seq<Value> {
    if items == [] then []
    else
      var r := Resolve(render, path, items[0]);
      (if r.Ok? then [r.value] else []) + Successes(render, path, items[1..])
  }

  /** The documented meaning: a flattened array, only elements that fail to resolve left out. */
  function Flattened(render: Value -> string, path: string, items: seq<Value>): seq<Value> {
    Spread(Successes(render, path, items))
  }

  /** The number of arrays and leaves in a value, counting through arrays only. */
  ghost function Size(v: Value): nat
    decreases v
  {
    match v case Arr(items) => 1 + Total(items) case _ => 1
  }

  ghost function Total(vs: seq<Value>): nat
    decreases vs
  {
    if vs == [] then 0 else Size(vs[0]) + Total(vs[1..])
  }

  lemma {:induction false} TotalConcat(a: seq<Value>, b: seq<Value>)
    ensures Total(a + b) == Total(a) + Total(b)
    decreases |a|
  {
    if a == [] {
      Unit(b);
    } else {
      TailOfConcat(a, b);
      TotalConcat(a[1..], b);
    }
  }

  ghost function Arrays(vs: seq<Value>): nat {
    if vs == [] then 0 else (if vs[0].Arr? then 1 else 0) + Arrays(vs[1..])
  }

  /** Spreading takes one away for every array. */
  lemma {:induction false} SpreadTotal(rs: seq<Value>)
    ensures Total(Spread(rs)) + Arrays(rs) == Total(rs)
    decreases |rs|
  {
    if rs != [] {
      SpreadTotal(rs[1..]);
      var head := if rs[0].Arr? then rs[0].items else [rs[0]];
      TotalConcat(head, Spread(rs[1..]));
      assert [rs[0]][1..] == [];
    }
  }

  predicate NoArray(vs: seq<Value>) { forall v :: v in vs ==> !v.Arr? }

  lemma {:induction false} ArraysCounted(vs: seq<Value>)
    ensures Arrays(vs) == 0 <==> NoArray(vs)
    decreases |vs|
  {
    if vs != [] {
      ArraysCounted(vs[1..]);
      Recons(vs);
    }
  }

  /** Spreading changes a list exactly when there is an array in it. */
  lemma {:induction false} SpreadExactly(vs: seq<Value>)
    ensures Spread(vs) == vs <==> NoArray(vs)
    decreases |vs|
  {
    SpreadTotal(vs);
    ArraysCounted(vs);
    if NoArray(vs) {
      SpreadPlain(vs);
    }
  }

  lemma {:induction false} SpreadPlain(vs: seq<Value>)
    requires NoArray(vs)
    ensures Spread(vs) == vs
    decreases |vs|
  {
    if vs != [] {
      assert vs[0] in vs && forall v :: v in vs[1..] ==> v in vs;
      SpreadPlain(vs[1..]);
      Recons(vs);
    }
  }

  lemma {:induction false} NilIsKept(vs: seq<Value>)
    ensures Null in vs ==> Null in Spread(vs)
    decreases |vs|
  {
    if vs != [] {
      NilIsKept(vs[1..]);
      Recons(vs);
    }
  }

  /** The interpreter leaves nils out, the documentation does not. */
  lemma {:induction false} NilIsDropped(render: Value -> string, path: string, items: seq<Value>)
    ensures Null !in Results(render, path, items)
    ensures Null !in Successes(render, path, items) ==> Results(render, path, items) == Successes(render, path, items)
    decreases |items|
  {
    if items != [] {
      NilIsDropped(render, path, items[1..]);
    }
  }

  predicate IsFlat(r: Outcome) { r.Ok? ==> !r.value.Null? && !r.value.Arr? }

  /** No item resolves to nil, none to an array. */
  predicate FlatOn(render: Value -> string, path: string, items: seq<Value>) {
    forall item :: item in items ==> IsFlat(Resolve(render, path, item))
  }

  lemma {:induction false} FlatMeaning(render: Value -> string, path: string, items: seq<Value>)
    ensures FlatOn(render, path, items)
      <==> Null !in Successes(render, path, items) && NoArray(Successes(render, path, items))
    decreases |items|
  {
    if items != [] {
      FlatMeaning(render, path, items[1..]);
      FlatCons(render, path, items);
      NoneCons(Resolve(render, path, items[0]), Successes(render, path, items[1..]));
    }
  }

  lemma FlatCons(render: Value -> string, path: string, items: seq<Value>)
    requires items != []
    ensures FlatOn(render, path, items) <==> IsFlat(Resolve(render, path, items[0])) && FlatOn(render, path, items[1..])
  {
    Recons(items);
    assert forall item :: item in items <==> item == items[0] || item in items[1..];
  }

  lemma NoneCons(r: Outcome, later: seq<Value>)
    ensures var all := (if r.Ok? then [r.value] else []) + later;
            Null !in all && NoArray(all) <==> IsFlat(r) && Null !in later && NoArray(later)
  {
    var head := if r.Ok? then [r.value] else [];
    assert forall v :: v in head + later <==> (r.Ok? && v == r.value) || v in later;
  }

  /** The interpreter's list is the flattened one exactly when no item resolves to nil or to an array. */
  lemma FlatteningExactly(render: Value -> string, path: string, items: seq<Value>)
    ensures Results(render, path, items) == Flattened(render, path, items) <==> FlatOn(render, path, items)
  {
    var found := Successes(render, path, items);
    NilIsDropped(render, path, items);
    NilIsKept(found);
    SpreadExactly(found);
    FlatMeaning(render, path, items);
  }

  /**
   "p[*].q" is the flattened list the documentation promises exactly when q yields neither nil nor
   an array on any item.
   */
  lemma WildcardFlattens(render: Value -> string, p: seq<Part>, q: seq<Part>, d: Value, items: seq<Value>)
    requires WellFormed(p) && WellFormed(q) && WildcardFree(p) && TakesBrackets(p) && q != []
    requires Resolve(render, Print(p), d) == Ok(Arr(items))
    ensures Resolve(render, Print(p) + "[*]." + Print(q), d) == Ok(Arr(Flattened(render, Print(q), items)))
      <==> FlatOn(render, Print(q), items)
  {
    WildcardLaw(render, p, q, d, items);
    FlatteningExactly(render, Print(q), items);
  }

  /** "p[*]" alone is the flattened list exactly when no item is an array. */
  lemma WildcardAloneFlattens(render: Value -> string, p: seq<Part>, d: Value, items: seq<Value>)
    requires WellFormed(p) && WildcardFree(p) && TakesBrackets(p)
    requires Resolve(render, Print(p), d) == Ok(Arr(items))
    ensures Resolve(render, Print(p) + "[*]", d) == Ok(Arr(Spread(items))) <==> NoArray(items)
  {
    WildcardAlone(render, p, d, items);
    SpreadExactly(items);
  }
}
