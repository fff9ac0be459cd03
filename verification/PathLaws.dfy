/**
 Laws of the path language, stated on path text and proved through the evaluator: when a
 path may be walked in two legs, what a wildcard collects, and what the interpreter does
 with brackets it does not support.
 */
module PathLaws {
  import opened Text
  import opened Json
  import opened PathResolve
  import opened PathSyntax
  import opened PathRefinement

  /** A wildcard that is read: not one of the brackets behind a filter. */
  predicate ReachesStar(bs: seq<Bracket>) {
    bs != [] && (bs[0].Star? || (bs[0].Index? && ReachesStar(bs[1..])))
  }

  predicate WildcardFree(p: seq<Part>) {
    forall i :: 0 <= i < |p| && p[i].Chain? ==> !ReachesStar(p[i].brackets)
  }

  /** The walk along p ends early, at a plain field that the object it has reached lacks. */
  predicate EndsAtMissingField(render: Value -> string, p: seq<Part>, v: Value) {
    exists i :: 0 <= i < |p| && MissingAt(render, p, v, i)
  }

  predicate MissingAt(render: Value -> string, p: seq<Part>, v: Value, i: nat)
    requires i < |p|
  {
    p[i].Field? &&
    var o := Eval(render, p[..i], v);
    o.Ok? && o.value.Obj? && p[i].name !in o.value.fields
  }

  /** The parts of a path before its first missing field; what follows runs on their result. */
  function WalkPast(render: Value -> string, p: seq<Part>, q: seq<Part>, v: Value): Outcome {
    var o := Eval(render, p, v);
    if o.Err? then Err
    else if EndsAtMissingField(render, p, v) then Ok(Null)
    else Eval(render, q, o.value)
  }

  /** The first part alone, on v: an error, or the value the second part starts from. */
  function FirstLeg(render: Value -> string, part: Part, v: Value): Outcome {
    Eval(render, [part], v)
  }

  predicate MissingHead(part: Part, v: Value) {
    part.Field? && v.Obj? && part.name !in v.fields
  }

  lemma {:induction false} ChainLegs(render: Value -> string, opens: bool, bs: seq<Bracket>, tail: seq<Part>, v: Value)
    requires !ReachesStar(bs)
    ensures var o := EvalChain(render, opens, bs, [], v);
            EvalChain(render, opens, bs, tail, v) == if o.Err? then Err else Eval(render, tail, o.value)
    decreases |bs|
  {
    if bs != [] && v.Arr? {
      match bs[0] {
        case Index(n) =>
          if 0 <= n < |v.items| {
            ChainLegs(render, false, bs[1..], tail, v.items[n]);
          }
        case Select(key, _, val, _) =>
          var hit := FirstMatch(render, v.items, key, val);
          assert Eval(render, [], hit) == Ok(hit);
        case Unreadable(_) =>
      }
    }
  }

  /** One part, then the rest: unless the part is a missing field, which ends the walk. */
  lemma HeadLeg(render: Value -> string, part: Part, tail: seq<Part>, v: Value)
    requires part.Chain? ==> !ReachesStar(part.brackets)
    ensures var o := FirstLeg(render, part, v);
            Eval(render, [part] + tail, v)
            == if o.Err? then Err else if MissingHead(part, v) then Ok(Null) else Eval(render, tail, o.value)
    ensures MissingHead(part, v) ==> FirstLeg(render, part, v) == Ok(Null)
  {
    Uncons(part, tail);
    assert [part][1..] == [];
    match part {
      case Field(name) =>
        if v.Obj? && name in v.fields {
          assert Eval(render, [], v.fields[name]) == Ok(v.fields[name]);
        }
      case Chain(name, bs) =>
        if name == "" || v.Obj? {
          ChainLegs(render, true, bs, tail, Base(name, v));
        }
    }
  }

  /** Where a walk ends early, seen from its first part. */
  lemma MissingCons(render: Value -> string, part: Part, p: seq<Part>, v: Value)
    requires WildcardFree([part] + p)
    ensures var o := FirstLeg(render, part, v);
            EndsAtMissingField(render, [part] + p, v)
            <==> o.Ok? && (MissingHead(part, v) || EndsAtMissingField(render, p, o.value))
  {
    var whole := [part] + p;
    assert whole[0] == part;
    var o := FirstLeg(render, part, v);
    assert whole[..0] == [];
    assert MissingAt(render, whole, v, 0) <==> MissingHead(part, v);
    forall i | 0 <= i < |p|
      ensures MissingAt(render, whole, v, i + 1)
              <==> o.Ok? && !MissingHead(part, v) && MissingAt(render, p, o.value, i)
    {
      assert whole[..i + 1] == [part] + p[..i];
      HeadLeg(render, part, p[..i], v);
      assert whole[i + 1] == p[i];
    }
    if EndsAtMissingField(render, whole, v) && !MissingHead(part, v) {
      var i :| 0 <= i < |whole| && MissingAt(render, whole, v, i);
      assert i > 0 && MissingAt(render, whole, v, (i - 1) + 1);
      assert o.Ok? && MissingAt(render, p, o.value, i - 1);
    }
    if o.Ok? && !MissingHead(part, v) && EndsAtMissingField(render, p, o.value) {
      var i :| 0 <= i < |p| && MissingAt(render, p, o.value, i);
      assert MissingAt(render, whole, v, i + 1);
    }
    if o.Ok? && MissingHead(part, v) && EndsAtMissingField(render, p, o.value) {
      assert MissingAt(render, whole, v, 0);
    }
  }

  /** Evaluating p then q in one go is walking p and then, if it got there, q. */
  lemma {:induction false} EvalInTwoLegs(render: Value -> string, p: seq<Part>, q: seq<Part>, v: Value)
    requires WildcardFree(p)
    ensures Eval(render, p + q, v) == WalkPast(render, p, q, v)
    ensures EndsAtMissingField(render, p, v) ==> Eval(render, p, v) == Ok(Null)
    decreases |p|
  {
    if p == [] {
      assert p + q == q;
    } else {
      var part, rest := p[0], p[1..];
      assert p == [part] + rest && p + q == [part] + (rest + q);
      HeadLeg(render, part, rest + q, v);
      HeadLeg(render, part, rest, v);
      MissingCons(render, part, rest, v);
      var o := FirstLeg(render, part, v);
      if o.Ok? {
        EvalInTwoLegs(render, rest, q, o.value);
      }
    }
  }

  // -----------------------------------------------------------------------------------
  // Law 1: path composition, on text

  lemma {:induction false} PrintConcat(p: seq<Part>, q: seq<Part>)
    requires p != [] && q != []
    ensures Print(p + q) == Print(p) + "." + Print(q)
    decreases |p|
  {
    var rest := p[1..];
    assert (p + q)[0] == p[0] && (p + q)[1..] == rest + q;
    assert PrintParts(p + q) == [PrintPart(p[0])] + PrintParts(rest + q);
    assert PrintParts(p) == [PrintPart(p[0])] + PrintParts(rest);
    if rest == [] {
      assert rest + q == q;
    } else {
      PrintConcat(rest, q);
      assert Print(p) == PrintPart(p[0]) + "." + Print(rest);
      assert Print(p + q) == PrintPart(p[0]) + "." + Print(rest + q);
    }
  }

  lemma NullHasNoParts(render: Value -> string, q: seq<Part>)
    requires WellFormed(q) && q != []
    ensures Eval(render, q, Null) == Err
  {
    assert WellFormedPart(q[0]);
  }

  /**
   Resolving "p.q" is resolving q on what p resolves to, exactly when the walk along p does
   not end at a missing plain field (then "p.q" is nil, while q on nil is an error).
   */
  lemma PathComposition(render: Value -> string, p: seq<Part>, q: seq<Part>, d: Value)
    requires WellFormed(p) && WellFormed(q) && WildcardFree(p) && p != [] && q != []
    requires Resolve(render, Print(p), d).Ok?
    ensures Resolve(render, Print(p) + "." + Print(q), d)
            == Resolve(render, Print(q), Resolve(render, Print(p), d).value)
            <==> !EndsAtMissingField(render, p, d)
    ensures !Resolve(render, Print(p), d).value.Null? ==> !EndsAtMissingField(render, p, d)
  {
    PrintConcat(p, q);
    ResolveRefinesEval(render, p, d);
    var v := Eval(render, p, d).value;
    ResolveRefinesEval(render, q, v);
    assert WellFormed(p + q);
    ResolveRefinesEval(render, p + q, d);
    EvalInTwoLegs(render, p, q, d);
    NullHasNoParts(render, q);
  }

  // -----------------------------------------------------------------------------------
  // Law 2: what a wildcard collects, on text

  /** In order, the results of the path text on the items, errors and nils left out. */
  function Results(render: Value -> string, path: string, items: seq<Value>): seq<Value> {
    if items == [] then []
    else
      var r := Resolve(render, path, items[0]);
      (if r == Err || r == Ok(Null) then [] else [r.value]) + Results(render, path, items[1..])
  }

  lemma EvalUnread(render: Value -> string, more: seq<Bracket>, q: seq<Part>, v: Value)
    ensures Eval(render, Unread(more, q), v) == EvalChain(render, true, more, q, v)
  {
    if more != [] {
      Uncons(Chain("", more), q);
    }
  }

  lemma {:induction false} EachIsResults(render: Value -> string, more: seq<Bracket>, q: seq<Part>, items: seq<Value>)
    requires WellFormedBrackets(more) && WellFormed(q)
    ensures EvalEach(render, more, q, items) == Results(render, Print(Unread(more, q)), items)
    decreases |items|
  {
    if items != [] {
      UnreadText(more, q);
      ResolveRefinesEval(render, Unread(more, q), items[0]);
      EvalUnread(render, more, q, items[0]);
      EachIsResults(render, more, q, items[1..]);
    }
  }

  predicate AllIndexes(bs: seq<Bracket>) { forall b :: b in bs ==> b.Index? }

  function BracketsOf(part: Part): seq<Bracket> {
    match part case Field(_) => [] case Chain(_, bs) => bs
  }

  /** The last part of a path can carry more brackets (behind a filter they would be dropped). */
  predicate TakesBrackets(p: seq<Part>) { p == [] || AllIndexes(BracketsOf(p[|p| - 1])) }

  /** A part with brackets added behind its last one. */
  function Extended(last: Part, more: seq<Bracket>): Part { Chain(last.name, BracketsOf(last) + more) }

  function Append(p: seq<Part>, more: seq<Bracket>): (r: seq<Part>) {
    if p == [] then [Chain("", more)] else p[..|p| - 1] + [Extended(p[|p| - 1], more)]
  }

  lemma AppendWellFormed(p: seq<Part>, more: seq<Bracket>)
    requires WellFormed(p) && WellFormedBrackets(more) && more != []
    ensures WellFormed(Append(p, more))
  {
    if p != [] {
      var last := p[|p| - 1];
      assert WellFormedPart(last);
      assert forall b :: b in BracketsOf(last) + more ==> b in BracketsOf(last) || b in more;
    }
  }

  lemma {:induction false} PrintBracketsConcat(a: seq<Bracket>, b: seq<Bracket>)
    ensures PrintBrackets(a + b) == PrintBrackets(a) + PrintBrackets(b)
    decreases |a|
  {
    if a == [] {
      Unit(b);
      Unit(PrintBrackets(b));
    } else {
      TailOfConcat(a, b);
      PrintBracketsConcat(a[1..], b);
      Assoc(PrintBracket(a[0]), PrintBrackets(a[1..]), PrintBrackets(b));
    }
  }

  lemma PrintExtended(last: Part, more: seq<Bracket>)
    ensures PrintPart(Extended(last, more)) == PrintPart(last) + PrintBrackets(more)
  {
    PrintBracketsConcat(BracketsOf(last), more);
    Unit(last.name);
    Assoc(last.name, PrintBrackets(BracketsOf(last)), PrintBrackets(more));
  }

  lemma PrintOne(part: Part)
    ensures Print([part]) == PrintPart(part)
  {
    assert PrintParts([part]) == [PrintPart(part)];
  }

  lemma PrintAppend(p: seq<Part>, more: seq<Bracket>)
    ensures Print(Append(p, more)) == Print(p) + PrintBrackets(more)
  {
    if p == [] {
      PrintOne(Chain("", more));
      Unit(PrintBrackets(more));
    } else {
      var init, last := p[..|p| - 1], p[|p| - 1];
      Unsnoc(p);
      PrintExtended(last, more);
      PrintOne(last);
      PrintOne(Extended(last, more));
      if init == [] {
        Unit([last]);
        Unit([Extended(last, more)]);
      } else {
        PrintConcat(init, [last]);
        PrintConcat(init, [Extended(last, more)]);
        Assoc(Print(init) + ".", PrintPart(last), PrintBrackets(more));
      }
    }
  }

  /** The text of p and, behind a dot, of q. */
  function Followed(p: seq<Part>, q: seq<Part>): string {
    if p == [] then Print(q) else if q == [] then Print(p) else Print(p) + "." + Print(q)
  }

  lemma PrintFollowed(p: seq<Part>, q: seq<Part>)
    ensures Print(p + q) == Followed(p, q)
  {
    if p == [] {
      Unit(q);
    } else if q == [] {
      Unit(p);
    } else {
      PrintConcat(p, q);
    }
  }

  /** What a wildcard makes of an array. */
  function Collected(render: Value -> string, more: seq<Bracket>, q: seq<Part>, items: seq<Value>): Outcome {
    Ok(Arr(if more == [] && q == [] then items else EvalEach(render, more, q, items)))
  }

  lemma {:induction false} ChainStar(render: Value -> string, opens: bool, bs: seq<Bracket>, more: seq<Bracket>,
      q: seq<Part>, v: Value)
    requires AllIndexes(bs)
    requires var o := EvalChain(render, opens, bs, [], v); o.Ok? && o.value.Arr?
    ensures EvalChain(render, opens, bs + ([Star] + more), q, v)
      == Collected(render, more, q, EvalChain(render, opens, bs, [], v).value.items)
    decreases |bs|
  {
    if bs == [] {
      Unit([Star] + more);
      Uncons(Star, more);
    } else {
      assert bs[0] in bs && forall b :: b in bs[1..] ==> b in bs;
      TailOfConcat(bs, [Star] + more);
      ChainStar(render, false, bs[1..], more, q, v.items[bs[0].n]);
    }
  }

  lemma EvalExtended(render: Value -> string, part: Part, more: seq<Bracket>, q: seq<Part>, d: Value, items: seq<Value>)
    requires WellFormedPart(part) && AllIndexes(BracketsOf(part)) && Eval(render, [part], d) == Ok(Arr(items))
    ensures Eval(render, [Extended(part, [Star] + more)] + q, d) == Collected(render, more, q, items)
  {
    assert [part][1..] == [];
    Uncons(Extended(part, [Star] + more), q);
    if part.Field? {
      BaseOfField(render, part, d, items);
      assert EvalChain(render, true, [], [], Base(part.name, d)) == Ok(Arr(items));
    }
    ChainStar(render, true, BracketsOf(part), more, q, Base(part.name, d));
  }

  lemma BaseOfField(render: Value -> string, part: Part, d: Value, items: seq<Value>)
    requires WellFormedPart(part) && part.Field? && Eval(render, [part], d) == Ok(Arr(items))
    ensures d.Obj? && Base(part.name, d) == Arr(items)
  {
    assert [part][1..] == [];
    if d.Obj? && part.name in d.fields {
      assert Eval(render, [], d.fields[part.name]) == Ok(d.fields[part.name]);
    }
  }

  lemma EvalAppended(render: Value -> string, p: seq<Part>, more: seq<Bracket>, q: seq<Part>, d: Value,
      items: seq<Value>)
    requires WellFormed(p) && WildcardFree(p) && TakesBrackets(p)
    requires Eval(render, p, d) == Ok(Arr(items))
    ensures Eval(render, Append(p, [Star] + more) + q, d) == Collected(render, more, q, items)
  {
    if p == [] {
      Uncons(Chain("", [Star] + more), q);
      Unit([Star] + more);
      ChainStar(render, true, [], more, q, d);
    } else {
      var init, last := p[..|p| - 1], p[|p| - 1];
      assert WellFormedPart(last);
      var extended := Extended(last, [Star] + more);
      Unsnoc(p);
      Assoc(init, [extended], q);
      EvalInTwoLegs(render, init, [last], d);
      EvalInTwoLegs(render, init, [extended] + q, d);
      EvalExtended(render, last, more, q, Eval(render, init, d).value, items);
    }
  }

  /** "p[*]" alone is the array itself, nils included. */
  lemma WildcardAlone(render: Value -> string, p: seq<Part>, d: Value, items: seq<Value>)
    requires WellFormed(p) && WildcardFree(p) && TakesBrackets(p)
    requires Resolve(render, Print(p), d) == Ok(Arr(items))
    ensures Resolve(render, Print(p) + "[*]", d) == Ok(Arr(items))
  {
    ResolveRefinesEval(render, p, d);
    PrintAppend(p, [Star]);
    PrintBracketsOne(Star);
    Unit([Star]);
    Unit(Append(p, [Star]));
    EvalAppended(render, p, [], [], d, items);
    AppendWellFormed(p, [Star]);
    ResolveRefinesEval(render, Append(p, [Star]), d);
  }

  lemma PrintBracketsOne(b: Bracket)
    ensures PrintBrackets([b]) == PrintBracket(b)
  {
    assert [b][1..] == [];
    Unit(PrintBracket(b));
  }

  /**
   A wildcard and what is written behind it, brackets and parts: the list of what that
   resolves to on each item of the array p resolves to, in order and without errors and nils.
   */
  lemma WildcardRestLaw(render: Value -> string, p: seq<Part>, more: seq<Bracket>, q: seq<Part>, d: Value,
      items: seq<Value>)
    requires WellFormed(p) && WildcardFree(p) && TakesBrackets(p)
    requires WellFormedBrackets(more) && WellFormed(q) && (more != [] || q != [])
    requires Resolve(render, Print(p), d) == Ok(Arr(items))
    ensures Print(Append(p, [Star] + more)) == Print(p) + ("[*]" + PrintBrackets(more))
    ensures Resolve(render, Followed(Append(p, [Star] + more), q), d)
      == Ok(Arr(Results(render, Print(Unread(more, q)), items)))
  {
    ResolveRefinesEval(render, p, d);
    EvalAppended(render, p, more, q, d, items);
    EachIsResults(render, more, q, items);
    PrintAppend(p, [Star] + more);
    Uncons(Star, more);
    assert forall b :: b in [Star] + more ==> b == Star || b in more;
    AppendWellFormed(p, [Star] + more);
    WellFormedConcat(Append(p, [Star] + more), q);
    PrintFollowed(Append(p, [Star] + more), q);
    ResolveRefinesEval(render, Append(p, [Star] + more) + q, d);
  }

  /** "p[*].q" is the list of what q resolves to on each item. */
  lemma WildcardLaw(render: Value -> string, p: seq<Part>, q: seq<Part>, d: Value, items: seq<Value>)
    requires WellFormed(p) && WellFormed(q) && WildcardFree(p) && TakesBrackets(p) && q != []
    requires Resolve(render, Print(p), d) == Ok(Arr(items))
    ensures Resolve(render, Print(p) + "[*]." + Print(q), d) == Ok(Arr(Results(render, Print(q), items)))
  {
    WildcardRestLaw(render, p, [], q, d, items);
    Unit("[*]");
    Assoc(Print(p), "[*]", ".");
    StarDot();
  }

  lemma StarDot()
    ensures "[*]" + "." == "[*]."
  {
  }

  lemma WellFormedConcat(p: seq<Part>, q: seq<Part>)
    requires WellFormed(p) && WellFormed(q)
    ensures WellFormed(p + q)
  {
  }

  // -----------------------------------------------------------------------------------
  // Law 3: brackets behind a filter are dropped

  /** Two continuations that denote the same everywhere: neither is empty. */
  ghost predicate Alike(render: Value -> string, a: seq<Part>, b: seq<Part>) {
    a != [] && b != [] && forall v :: Eval(render, a, v) == Eval(render, b, v)
  }

  /** They denote the same behind any path, wildcards included. */
  lemma {:induction false} AlikeBehind(render: Value -> string, p: seq<Part>, a: seq<Part>, b: seq<Part>, v: Value)
    requires Alike(render, a, b)
    ensures Eval(render, p + a, v) == Eval(render, p + b, v)
    decreases |p|, 0, 0
  {
    if p == [] {
      Unit(a);
      Unit(b);
    } else {
      TailOfConcat(p, a);
      TailOfConcat(p, b);
      match p[0] {
        case Field(name) =>
          if v.Obj? && name in v.fields {
            AlikeBehind(render, p[1..], a, b, v.fields[name]);
          }
        case Chain(name, bs) => AlikeBehindChain(render, true, bs, p[1..], a, b, Base(name, v));
      }
    }
  }

  lemma {:induction false} AlikeBehindChain(render: Value -> string, opens: bool, bs: seq<Bracket>, p: seq<Part>,
      a: seq<Part>, b: seq<Part>, v: Value)
    requires Alike(render, a, b)
    ensures EvalChain(render, opens, bs, p + a, v) == EvalChain(render, opens, bs, p + b, v)
    decreases |p|, |bs| + 1, 0
  {
    if bs == [] {
      AlikeBehind(render, p, a, b, v);
    } else if v.Arr? {
      match bs[0] {
        case Index(n) =>
          if 0 <= n < |v.items| {
            AlikeBehindChain(render, false, bs[1..], p, a, b, v.items[n]);
          }
        case Star => AlikeBehindEach(render, bs[1..], p, a, b, v.items);
        case Select(key, _, val, _) =>
          if opens {
            AlikeBehind(render, p, a, b, FirstMatch(render, v.items, key, val));
          }
        case Unreadable(_) =>
      }
    }
  }

  lemma {:induction false} AlikeBehindEach(render: Value -> string, bs: seq<Bracket>, p: seq<Part>, a: seq<Part>,
      b: seq<Part>, items: seq<Value>)
    requires Alike(render, a, b)
    ensures EvalEach(render, bs, p + a, items) == EvalEach(render, bs, p + b, items)
    decreases |p|, |bs| + 1, |items| + 1
  {
    if items != [] {
      AlikeBehindChain(render, true, bs, p, a, b, items[0]);
      AlikeBehindEach(render, bs, p, a, b, items[1..]);
    }
  }

  lemma {:induction false} ChainIgnoresBehind(render: Value -> string, opens: bool, before: seq<Bracket>, f: Bracket,
      behind: seq<Bracket>, tail: seq<Part>, v: Value)
    requires IsFilter(f)
    ensures EvalChain(render, opens, before + ([f] + behind), tail, v)
      == EvalChain(render, opens, before + [f], tail, v)
    decreases |before|, 0
  {
    if before == [] {
      Unit([f] + behind);
      Unit([f]);
      Uncons(f, behind);
    } else if v.Arr? {
      TailOfConcat(before, [f] + behind);
      TailOfConcat(before, [f]);
      match before[0] {
        case Index(n) =>
          if 0 <= n < |v.items| {
            ChainIgnoresBehind(render, false, before[1..], f, behind, tail, v.items[n]);
          }
        case Star => EachIgnoresBehind(render, before[1..], f, behind, tail, v.items);
        case _ =>
      }
    }
  }

  lemma {:induction false} EachIgnoresBehind(render: Value -> string, before: seq<Bracket>, f: Bracket,
      behind: seq<Bracket>, tail: seq<Part>, items: seq<Value>)
    requires IsFilter(f)
    ensures EvalEach(render, before + ([f] + behind), tail, items) == EvalEach(render, before + [f], tail, items)
    decreases |before|, |items| + 1
  {
    if items != [] {
      ChainIgnoresBehind(render, true, before, f, behind, tail, items[0]);
      EachIgnoresBehind(render, before, f, behind, tail, items[1..]);
    }
  }

  lemma FilterIgnoresBehind(render: Value -> string, name: string, before: seq<Bracket>, f: Bracket,
      behind: seq<Bracket>, q: seq<Part>)
    requires IsFilter(f)
    ensures Alike(render, [Chain(name, before + ([f] + behind))] + q, [Chain(name, before + [f])] + q)
  {
    var long, short := Chain(name, before + ([f] + behind)), Chain(name, before + [f]);
    Uncons(long, q);
    Uncons(short, q);
    forall v ensures Eval(render, [long] + q, v) == Eval(render, [short] + q, v) {
      ChainIgnoresBehind(render, true, before, f, behind, q, Base(name, v));
    }
  }

  /** Brackets written behind a filter have no effect, in any path and on any document. */
  lemma BracketsAfterFilterDropped(render: Value -> string, p: seq<Part>, name: string, before: seq<Bracket>,
      f: Bracket, behind: seq<Bracket>, q: seq<Part>, d: Value)
    requires WellFormed(p) && WellFormed(q) && PlainName(name) && IsFilter(f)
    requires WellFormedBrackets(before) && WellFormedBracket(f) && WellFormedBrackets(behind)
    ensures var long, short := Chain(name, before + ([f] + behind)), Chain(name, before + [f]);
            PrintPart(long) == PrintPart(short) + PrintBrackets(behind) &&
            Resolve(render, Print(p + ([long] + q)), d) == Resolve(render, Print(p + ([short] + q)), d)
  {
    var long, short := Chain(name, before + ([f] + behind)), Chain(name, before + [f]);
    Assoc(before, [f], behind);
    PrintExtended(short, behind);
    assert WellFormedPart(long) && WellFormedPart(short);
    WellFormedConcat([long], q);
    WellFormedConcat([short], q);
    WellFormedConcat(p, [long] + q);
    WellFormedConcat(p, [short] + q);
    ResolveRefinesEval(render, p + ([long] + q), d);
    ResolveRefinesEval(render, p + ([short] + q), d);
    FilterIgnoresBehind(render, name, before, f, behind, q);
    AlikeBehind(render, p, [long] + q, [short] + q, d);
  }

  // -----------------------------------------------------------------------------------
  // Law 4: where a filter is understood

  lemma {:induction false} IndexesThenFilter(render: Value -> string, opens: bool, indexes: seq<Bracket>, f: Bracket,
      behind: seq<Bracket>, tail: seq<Part>, v: Value)
    requires AllIndexes(indexes) && IsFilter(f) && (indexes == [] ==> !opens)
    ensures EvalChain(render, opens, indexes + ([f] + behind), tail, v) == Err
    decreases |indexes|
  {
    if indexes == [] {
      Unit([f] + behind);
      Uncons(f, behind);
    } else {
      assert indexes[0] in indexes && forall b :: b in indexes[1..] ==> b in indexes;
      TailOfConcat(indexes, [f] + behind);
      if v.Arr? && 0 <= indexes[0].n < |v.items| {
        IndexesThenFilter(render, false, indexes[1..], f, behind, tail, v.items[indexes[0].n]);
      }
    }
  }

  /** A part whose brackets are indexes, a filter behind them, and whatever else. */
  function Misplaced(name: string, indexes: seq<Bracket>, f: Bracket, behind: seq<Bracket>): Part {
    Chain(name, indexes + ([f] + behind))
  }

  predicate WellFormedMisplaced(name: string, indexes: seq<Bracket>, f: Bracket, behind: seq<Bracket>) {
    PlainName(name) && indexes != [] && AllIndexes(indexes) && IsFilter(f) &&
    WellFormedBrackets(indexes) && WellFormedBracket(f) && WellFormedBrackets(behind)
  }

  lemma MisplacedWellFormed(name: string, indexes: seq<Bracket>, f: Bracket, behind: seq<Bracket>)
    requires WellFormedMisplaced(name, indexes, f, behind)
    ensures WellFormedPart(Misplaced(name, indexes, f, behind))
    ensures PrintPart(Misplaced(name, indexes, f, behind))
      == name + (PrintBrackets(indexes) + (PrintBracket(f) + PrintBrackets(behind)))
  {
    PrintBracketsConcat(indexes, [f] + behind);
    Uncons(f, behind);
  }

  /**
   A filter written behind indexes is not understood: the path is an error on every document,
   unless the walk ends before it at a missing plain field; then the path is nil.
   */
  lemma FilterAfterIndexFails(render: Value -> string, p: seq<Part>, name: string, indexes: seq<Bracket>, f: Bracket,
      behind: seq<Bracket>, q: seq<Part>, d: Value)
    requires WellFormed(p) && WildcardFree(p) && WellFormedMisplaced(name, indexes, f, behind) && WellFormed(q)
    ensures var r := Resolve(render, Followed(p, [Misplaced(name, indexes, f, behind)] + q), d);
            (r == Err <==> !EndsAtMissingField(render, p, d)) && (EndsAtMissingField(render, p, d) ==> r == Ok(Null))
  {
    var m := Misplaced(name, indexes, f, behind);
    MisplacedWellFormed(name, indexes, f, behind);
    WellFormedConcat([m], q);
    WellFormedConcat(p, [m] + q);
    PrintFollowed(p, [m] + q);
    ResolveRefinesEval(render, p + ([m] + q), d);
    EvalInTwoLegs(render, p, [m] + q, d);
    Uncons(m, q);
    forall v ensures Eval(render, [m] + q, v) == Err {
      IndexesThenFilter(render, true, indexes, f, behind, q, Base(name, v));
    }
  }

  lemma {:induction false} NothingResolves(render: Value -> string, path: string, items: seq<Value>)
    requires forall item :: Resolve(render, path, item) == Err
    ensures Results(render, path, items) == []
    decreases |items|
  {
    if items != [] {
      NothingResolves(render, path, items[1..]);
    }
  }

  /** Behind a wildcard and indexes it turns every item into an error, and the path into the empty list. */
  lemma FilterAfterStarAndIndexIsEmpty(render: Value -> string, p: seq<Part>, indexes: seq<Bracket>, f: Bracket,
      behind: seq<Bracket>, q: seq<Part>, d: Value, items: seq<Value>)
    requires WellFormed(p) && WildcardFree(p) && TakesBrackets(p) && WellFormedMisplaced("", indexes, f, behind)
    requires WellFormed(q) && Resolve(render, Print(p), d) == Ok(Arr(items))
    ensures Resolve(render, Followed(Append(p, [Star] + (indexes + ([f] + behind))), q), d) == Ok(Arr([]))
  {
    var more := indexes + ([f] + behind);
    var m := Misplaced("", indexes, f, behind);
    MisplacedWellFormed("", indexes, f, behind);
    assert WellFormedBrackets(more);
    WildcardRestLaw(render, p, more, q, d, items);
    forall item ensures Resolve(render, Print(Unread(more, q)), item) == Err {
      FilterAfterIndexFails(render, [], "", indexes, f, behind, q, item);
      Unit([m] + q);
    }
    NothingResolves(render, Print(Unread(more, q)), items);
  }

  // -----------------------------------------------------------------------------------
  // Exactly where

  /** Indexes that some array has, and wildcards. */
  predicate Reachable(bs: seq<Bracket>) { forall b :: b in bs ==> b.Star? || (b.Index? && b.n >= 0) }

  predicate Opens(before: seq<Bracket>) { before == [] || before[|before| - 1].Star? }

  /** A document whose innermost array, under the given brackets, is the given value. */
  function Nest(bs: seq<Bracket>, inner: Value): Value
    requires Reachable(bs)
  {
    if bs == [] then inner
    else
      assert bs[0] in bs && forall b :: b in bs[1..] ==> b in bs;
      var below := Nest(bs[1..], inner);
      match bs[0]
      case Index(n) => Arr(seq(n + 1, _ => below))
      case _ => Arr([below])
  }

  /** On it a filter that is understood finds something, and one that cannot be read finds nothing. */
  lemma {:induction false} FilterFinds(render: Value -> string, opens: bool, before: seq<Bracket>, f: Bracket,
      x: Bracket)
    requires Reachable(before) && f.Select? && x.Unreadable? && (before == [] ==> opens) && Opens(before)
    ensures var d := Nest(before, Arr([Obj(map[f.key := Str(f.val)])]));
            var o := EvalChain(render, opens, before + [f], [], d);
            o.Ok? && !o.value.Null? && o != EvalChain(render, opens, before + [x], [], d)
    decreases |before|
  {
    var hit := Obj(map[f.key := Str(f.val)]);
    if before == [] {
      Unit([f]);
      Unit([x]);
      assert [f][1..] == [] && [x][1..] == [];
      assert [hit][0] == hit && MatchesFilter(render, hit, f.key, f.val);
      assert Eval(render, [], hit) == Ok(hit);
    } else {
      assert before[0] in before && forall b :: b in before[1..] ==> b in before;
      TailOfConcat(before, [f]);
      TailOfConcat(before, [x]);
      var below := Nest(before[1..], Arr([hit]));
      if before[0].Index? {
        FilterFinds(render, false, before[1..], f, x);
      } else {
        FilterFinds(render, true, before[1..], f, x);
        EachOne(render, before[1..] + [f], below);
        EachOne(render, before[1..] + [x], below);
      }
    }
  }

  lemma EachOne(render: Value -> string, bs: seq<Bracket>, item: Value)
    ensures var r := EvalChain(render, true, bs, [], item);
            EvalEach(render, bs, [], [item]) == if r.Ok? && !r.value.Null? then [r.value] else []
  {
    assert [item][1..] == [];
    assert EvalEach(render, bs, [], []) == [];
  }

  /** Behind an index no filter says more than one that cannot be read. */
  lemma {:induction false} FilterFindsNothing(render: Value -> string, opens: bool, before: seq<Bracket>, f: Bracket,
      x: Bracket, v: Value)
    requires IsFilter(f) && x.Unreadable? && (before == [] ==> !opens)
    requires before != [] ==> before[|before| - 1].Index?
    ensures EvalChain(render, opens, before + [f], [], v) == EvalChain(render, opens, before + [x], [], v)
    decreases |before|, 0
  {
    if before == [] {
      Unit([f]);
      Unit([x]);
    } else if v.Arr? {
      TailOfConcat(before, [f]);
      TailOfConcat(before, [x]);
      match before[0] {
        case Index(n) =>
          if 0 <= n < |v.items| {
            FilterFindsNothing(render, false, before[1..], f, x, v.items[n]);
          }
        case Star => EachFindsNothing(render, before[1..], f, x, v.items);
        case _ =>
      }
    }
  }

  lemma {:induction false} EachFindsNothing(render: Value -> string, before: seq<Bracket>, f: Bracket, x: Bracket,
      items: seq<Value>)
    requires IsFilter(f) && x.Unreadable? && before != [] && before[|before| - 1].Index?
    ensures EvalEach(render, before + [f], [], items) == EvalEach(render, before + [x], [], items)
    decreases |before|, |items| + 1
  {
    if items != [] {
      FilterFindsNothing(render, true, before, f, x, items[0]);
      EachFindsNothing(render, before, f, x, items[1..]);
    }
  }

  /** The document tells one filter from another, behind the same brackets. */
  predicate TellsApart(render: Value -> string, before: seq<Bracket>, f: Bracket, x: Bracket, d: Value) {
    Resolve(render, PrintBrackets(before + [f]), d) != Resolve(render, PrintBrackets(before + [x]), d)
  }

  lemma TellsApartByEval(render: Value -> string, before: seq<Bracket>, f: Bracket, x: Bracket, d: Value)
    requires WellFormedBrackets(before) && WellFormedBracket(f) && WellFormedBracket(x)
    ensures TellsApart(render, before, f, x, d)
      <==> EvalChain(render, true, before + [f], [], d) != EvalChain(render, true, before + [x], [], d)
  {
    ResolveBrackets(render, before + [f], d);
    ResolveBrackets(render, before + [x], d);
  }

  /**
   A filter is understood, that is, told on some document from one that cannot be read,
   exactly where it opens its part or stands directly behind a wildcard.
   */
  lemma FilterUnderstoodExactly(render: Value -> string, before: seq<Bracket>, f: Bracket, x: Bracket)
    requires Reachable(before) && WellFormedBrackets(before) && f.Select? && WellFormedBracket(f)
    requires x.Unreadable? && WellFormedBracket(x)
    ensures (exists d :: TellsApart(render, before, f, x, d)) <==> Opens(before)
  {
    if Opens(before) {
      var d := Nest(before, Arr([Obj(map[f.key := Str(f.val)])]));
      FilterFinds(render, true, before, f, x);
      TellsApartByEval(render, before, f, x, d);
    } else {
      assert before[|before| - 1] in before;
      forall d ensures !TellsApart(render, before, f, x, d) {
        FilterFindsNothing(render, true, before, f, x, d);
        TellsApartByEval(render, before, f, x, d);
      }
    }
  }

  lemma ResolveBrackets(render: Value -> string, bs: seq<Bracket>, d: Value)
    requires WellFormedBrackets(bs) && bs != []
    ensures Resolve(render, PrintBrackets(bs), d) == EvalChain(render, true, bs, [], d)
  {
    PrintUnreadAlone(bs);
    assert WellFormed(Unread(bs, []));
    ResolveRefinesEval(render, Unread(bs, []), d);
    EvalUnread(render, bs, [], d);
  }

  lemma PrintUnreadAlone(bs: seq<Bracket>)
    requires bs != []
    ensures Print(Unread(bs, [])) == PrintBrackets(bs)
  {
    PrintOne(Chain("", bs));
    Unit([Chain("", bs)]);
    Unit(PrintBrackets(bs));
  }
}
