/**
 Readings of matchers given in docs/test-case-reference.md ("Matcher Reference"), and exactly
 when the code agrees with them.
 */
module MatcherReadings {
  import opened Decimal
  import opened Json
  import opened Matcher
  import opened MatcherMeaning
  import opened StepMeaning
  import opened StepExecution
  import opened Template

  /** "any" is documented to take any value but null: the code takes null too. */
  lemma AnyAsDocumented(lib: Library, v: Value)
    ensures (Matches(lib, Str("any"), v) <==> v != Null) <==> v != Null
  {
    WordsOfPresence(lib, v);
  }

  /** "exists" is documented to take any value, null included: the code refuses null. */
  lemma ExistsAsDocumented(lib: Library, v: Value)
    ensures Matches(lib, Str("exists"), v) <==> v != Null
  {
    WordsOfPresence(lib, v);
  }

  function Distance(x: real, y: real): real { if x <= y then y - x else x - y }

  /** ~x is documented with a tolerance of half of x, and of 100 at least. */
  predicate DocumentedClose(x: real, v: Value) {
    v.Num? && Distance(x, v.n) <= if x * 0.5 >= 100.0 then x * 0.5 else 100.0
  }

  /** The text is read as ~x. */
  predicate SaysAbout(lib: Library, s: string, x: real) {
    "~" <= s && |s| > 1 && lib.parseRange(s) == None && lib.parseLength(s) == None && lib.parseApprox(s) == Some(x)
  }

  /** The code has no such minimum: it disagrees exactly on numbers off by more than half of x, but by 100 or less. */
  lemma CloseAsDocumented(lib: Library, s: string, x: real, v: Value)
    requires SaysAbout(lib, s, x)
    ensures (Matches(lib, Str(s), v) <==> DocumentedClose(x, v))
      <==> !(v.Num? && x * 0.5 < Distance(x, v.n) <= 100.0)
  {
    NumberCloseTo(lib, s, x, v);
  }

  /** So it agrees on every number exactly when half of x is 100 or more. */
  lemma CloseAgreesExactly(lib: Library, s: string, x: real)
    requires SaysAbout(lib, s, x) && x >= 0.0
    ensures (forall v :: Matches(lib, Str(s), v) <==> DocumentedClose(x, v)) <==> x >= 200.0
  {
    forall v
      ensures (Matches(lib, Str(s), v) <==> DocumentedClose(x, v))
        <==> !(v.Num? && x * 0.5 < Distance(x, v.n) <= 100.0)
    {
      CloseAsDocumented(lib, s, x, v);
    }
    if x < 200.0 {
      var v := Num(x + 100.0);
      assert x * 0.5 < Distance(x, v.n) <= 100.0;
    }
  }

  /** A number is documented to match exactly: the code also takes one within a billionth, unless both are whole. */
  lemma NumberAsDocumented(lib: Library, x: real, v: Value)
    ensures (Matches(lib, Num(x), v) <==> v == Num(x)) <==>
      !(v.Num? && v.n != x && Distance(x, v.n) <= 0.000000001 && !(x == x.Floor as real && v.n == v.n.Floor as real))
  {
    Numbers(lib, x, v);
  }

  // -----------------------------------------------------------------------------------
  // A combination of operators

  const OPERATORS := ["$exists", "$match", "$in", "$size", "$or", "$empty", "range"]

  /** One operator alone; $exists looks at $type too. */
  function Alone(fields: map<string, Value>, op: string): Value
    requires op in fields
  {
    if op == "$exists" && "$type" in fields then Obj(map[op := fields[op], "$type" := fields["$type"]])
    else Obj(map[op := fields[op]])
  }

  /** The operator at i is the first in the object. */
  predicate IsFirst(fields: map<string, Value>, i: nat) {
    i < |OPERATORS| && OPERATORS[i] in fields && forall j :: 0 <= j < i ==> OPERATORS[j] !in fields
  }

  /** What is documented: an object is a combination of operators. */
  ghost predicate AllHold(lib: Library, fields: map<string, Value>, v: Value) {
    forall op :: op in OPERATORS && op in fields ==> Matches(lib, Alone(fields, op), v)
  }

  /** What the code does: it looks at the first operator only, in that order. */
  lemma FirstOperatorDecides(lib: Library, fields: map<string, Value>, v: Value, i: nat)
    requires IsFirst(fields, i)
    ensures Matches(lib, Obj(fields), v) <==> Matches(lib, Alone(fields, OPERATORS[i]), v)
  {
    assert forall j :: 0 <= j < i ==> OPERATORS[j] !in fields;
    assert OPERATORS[0] == "$exists" && OPERATORS[1] == "$match" && OPERATORS[2] == "$in" && OPERATORS[3] == "$size";
    assert OPERATORS[4] == "$or" && OPERATORS[5] == "$empty" && OPERATORS[6] == "range";
    var alone := Alone(fields, OPERATORS[i]).fields;
    if i == 0 {
      ExistsOperator(lib, fields, v);
      ExistsOperator(lib, alone, v);
    } else if i == 1 {
      MatchOperator(lib, fields, v);
      MatchOperator(lib, alone, v);
    } else if i == 2 {
      InOperator(lib, fields, v);
      InOperator(lib, alone, v);
    } else if i == 3 {
      SizeOperator(lib, fields, v);
      SizeOperator(lib, alone, v);
    } else if i == 4 {
      OrOperator(lib, fields, v);
      OrOperator(lib, alone, v);
    } else if i == 5 {
      EmptyOperator(lib, fields, v);
      EmptyOperator(lib, alone, v);
    } else {
      RangeOperator(lib, fields, v);
      RangeOperator(lib, alone, v);
    }
  }

  /** Operators combine as documented exactly when the first refuses the value or all others accept it too. */
  lemma CombinationAsDocumented(lib: Library, fields: map<string, Value>, v: Value, i: nat)
    requires IsFirst(fields, i)
    ensures (Matches(lib, Obj(fields), v) <==> AllHold(lib, fields, v)) <==>
      (Matches(lib, Alone(fields, OPERATORS[i]), v) ==>
        forall op :: op in OPERATORS && op in fields && op != OPERATORS[i] ==> Matches(lib, Alone(fields, op), v))
  {
    FirstOperatorDecides(lib, fields, v, i);
    assert OPERATORS[i] in OPERATORS;
  }

  // -----------------------------------------------------------------------------------
  // Assertions under "$"

  /** An assertion under $, or any other word that starts with it and no dot, is never evaluated: it cannot fail. */
  lemma DollarIsNotEvaluated(world: World, entries: Entries, path: string, bodies: Bodies, doc: Value)
    requires IsDollarWord(path)
    ensures !EntryFails(world, entries, path, bodies, doc)
  {
  }
}
