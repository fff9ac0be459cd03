/**
 What acceptance means. On plain matchers it is the partial order "extends": the actual value
 carries everything the matcher names, arrays item by item, and may carry more object fields.
 On a much larger class of matchers acceptance is monotone in that order.
 */
module MatcherOrder {
  import opened Json
  import opened Matcher
  import opened MatcherMeaning

  /** w is v with object fields added at any depth. */
  predicate Extends(w: Value, v: Value)
    decreases v
  {
    match v
    case Arr(items) =>
      w.Arr? && |w.items| == |items| && forall i :: 0 <= i < |items| ==> Extends(w.items[i], items[i])
    case Obj(fields) =>
      w.Obj? && forall k :: k in fields ==> k in w.fields && Extends(w.fields[k], fields[k])
    case _ => w == v
  }

  lemma {:induction false} ExtendsReflexive(v: Value)
    ensures Extends(v, v)
    decreases v
  {
    match v {
      case Arr(items) =>
        forall i | 0 <= i < |items| ensures Extends(items[i], items[i]) { ExtendsReflexive(items[i]); }
      case Obj(fields) =>
        forall k | k in fields ensures Extends(fields[k], fields[k]) { ExtendsReflexive(fields[k]); }
      case _ =>
    }
  }

  lemma {:induction false} ExtendsTransitive(a: Value, b: Value, c: Value)
    requires Extends(b, a) && Extends(c, b)
    ensures Extends(c, a)
    decreases a
  {
    match a {
      case Arr(items) =>
        forall i | 0 <= i < |items| ensures Extends(c.items[i], items[i]) {
          ExtendsTransitive(items[i], b.items[i], c.items[i]);
        }
      case Obj(fields) =>
        forall k | k in fields ensures k in c.fields && Extends(c.fields[k], fields[k]) {
          assert k in b.fields;
          ExtendsTransitive(fields[k], b.fields[k], c.fields[k]);
        }
      case _ =>
    }
  }

  lemma {:induction false} ExtendsAntisymmetric(a: Value, b: Value)
    requires Extends(a, b) && Extends(b, a)
    ensures a == b
    decreases a
  {
    match a {
      case Arr(items) =>
        forall i | 0 <= i < |items| ensures items[i] == b.items[i] {
          ExtendsAntisymmetric(items[i], b.items[i]);
        }
        assert items == b.items;
      case Obj(fields) =>
        forall k | k in fields ensures k in b.fields && fields[k] == b.fields[k] {
          ExtendsAntisymmetric(fields[k], b.fields[k]);
        }
        assert forall k :: k in b.fields ==> k in fields;
        assert fields == b.fields;
      case _ =>
    }
  }

  // -----------------------------------------------------------------------------------
  // Plain matchers

  predicate IntegralNumbers(v: Value)
    decreases v
  {
    match v
    case Num(n) => Integral(n)
    case Arr(items) => forall i :: 0 <= i < |items| ==> IntegralNumbers(items[i])
    case Obj(fields) => forall k :: k in fields ==> IntegralNumbers(fields[k])
    case _ => true
  }

  /** No reserved string, no operator key, only integral numbers. */
  predicate Plain(lib: Library, m: Value)
    decreases m
  {
    match m
    case Str(s) => Classify(lib, s) == Literal
    case Num(n) => Integral(n)
    case Arr(items) => forall i :: 0 <= i < |items| ==> Plain(lib, items[i])
    case Obj(fields) => OperatorOf(fields) == Fields && forall k :: k in fields ==> Plain(lib, fields[k])
    case _ => true
  }

  lemma {:induction false} PlainIsIntegral(lib: Library, m: Value)
    requires Plain(lib, m)
    ensures IntegralNumbers(m)
    decreases m
  {
    match m {
      case Arr(items) =>
        forall i | 0 <= i < |items| ensures IntegralNumbers(items[i]) { PlainIsIntegral(lib, items[i]); }
      case Obj(fields) =>
        forall k | k in fields ensures IntegralNumbers(fields[k]) { PlainIsIntegral(lib, fields[k]); }
      case _ =>
    }
  }

  lemma AbsentIsReserved(lib: Library, m: Value)
    requires Plain(lib, m)
    ensures m != Str("absent")
  {
  }

  lemma PlainLeafIsExtension(lib: Library, m: Value, v: Value)
    requires Plain(lib, m) && IntegralNumbers(v) && !m.Arr? && !m.Obj?
    ensures Matches(lib, m, v) <==> Extends(v, m)
  {
  }

  lemma PlainFieldIsExtension(lib: Library, m: Value, actual: map<string, Value>, key: string)
    requires Plain(lib, m)
    requires key in actual ==> (Matches(lib, m, actual[key]) <==> Extends(actual[key], m))
    ensures MatchesField(lib, m, actual, key) <==> key in actual && Extends(actual[key], m)
  {
    AbsentIsReserved(lib, m);
  }

  /** A plain matcher accepts exactly the values that extend it. */
  lemma {:induction false} PlainMatchIsExtension(lib: Library, m: Value, v: Value)
    requires Plain(lib, m) && IntegralNumbers(v)
    ensures Matches(lib, m, v) <==> Extends(v, m)
    decreases m
  {
    match m {
      case Arr(items) =>
        if v.Arr? && |v.items| == |items| {
          forall i | 0 <= i < |items|
            ensures Matches(lib, items[i], v.items[i]) <==> Extends(v.items[i], items[i])
          {
            PlainMatchIsExtension(lib, items[i], v.items[i]);
          }
        }
      case Obj(fields) =>
        FieldsDecide(lib, fields, v);
        if v.Obj? {
          forall k | k in fields
            ensures MatchesField(lib, fields[k], v.fields, k) <==> k in v.fields && Extends(v.fields[k], fields[k])
          {
            if k in v.fields {
              PlainMatchIsExtension(lib, fields[k], v.fields[k]);
            }
            PlainFieldIsExtension(lib, fields[k], v.fields, k);
          }
        }
      case _ => PlainLeafIsExtension(lib, m, v);
    }
  }

  /** Acceptance between plain values is reflexive, transitive and antisymmetric. */
  lemma PlainMatchingIsPartialOrder(lib: Library, a: Value, b: Value, c: Value)
    requires Plain(lib, a) && Plain(lib, b) && Plain(lib, c)
    ensures Matches(lib, a, a)
    ensures Matches(lib, a, b) && Matches(lib, b, c) ==> Matches(lib, a, c)
    ensures Matches(lib, a, b) && Matches(lib, b, a) ==> a == b
  {
    PlainIsIntegral(lib, a);
    PlainIsIntegral(lib, b);
    PlainIsIntegral(lib, c);
    PlainMatchIsExtension(lib, a, a);
    ExtendsReflexive(a);
    PlainMatchIsExtension(lib, a, b);
    PlainMatchIsExtension(lib, b, c);
    PlainMatchIsExtension(lib, a, c);
    PlainMatchIsExtension(lib, b, a);
    if Matches(lib, a, b) && Matches(lib, b, c) {
      ExtendsTransitive(a, b, c);
    }
    if Matches(lib, a, b) && Matches(lib, b, a) {
      ExtendsAntisymmetric(a, b);
    }
  }

  // -----------------------------------------------------------------------------------
  // Numbers that are not integral

  /** The number matcher a accepts the number b. */
  predicate Accepts(a: real, b: real) { MatchesNumber(a, Num(b)) }

  predicate Pattern(p: bool, q: bool, a: real, b: real) { Integral(a) == p && Integral(b) == q }

  /** Acceptance of numbers is antisymmetric on all pairs with a given pattern of integrality. */
  ghost predicate AntisymmetricOn(p: bool, q: bool) {
    forall a: real, b: real :: Pattern(p, q, a, b) && Accepts(a, b) && Accepts(b, a) ==> a == b
  }

  ghost predicate TransitiveOn(p: bool, q: bool, r: bool) {
    forall a: real, b: real, c: real ::
      Pattern(p, q, a, b) && Integral(c) == r && Accepts(a, b) && Accepts(b, c) ==> Accepts(a, c)
  }

  lemma WholeNumbers(a: real, b: real)
    requires Integral(a) && Integral(b) && Abs(a - b) < 1.0
    ensures a == b
  {
    assert a - b == (a.Floor - b.Floor) as real;
  }

  /** Adding a small fraction to a whole number gives no whole number. */
  lemma Between(n: int, x: real)
    requires n as real < x < (n + 1) as real
    ensures !Integral(x)
  {
    var k := x.Floor;
    assert k as real <= x < (n + 1) as real;
    assert k < n + 1;
    assert k as real <= n as real;
  }

  /** Every whole number is accepted by numbers it is not equal to, and by ones that refuse each other. */
  lemma Neighbours(n: int)
    ensures var a, b, c := n as real, n as real + 0.0000000008, n as real + 0.0000000016;
            var z := n as real - 0.0000000008;
            Integral(a) && !Integral(b) && !Integral(c) && !Integral(z) &&
            Accepts(a, b) && Accepts(b, a) && Accepts(b, c) && Accepts(c, b) && Accepts(z, a) && Accepts(a, z) &&
            !Accepts(a, c) && !Accepts(c, a) && !Accepts(z, b)
  {
    var a := n as real;
    assert a.Floor == n;
    Between(n, a + 0.0000000008);
    Between(n, a + 0.0000000016);
    Between(n - 1, a - 0.0000000008);
  }

  /** Numbers that accept each other are equal for sure exactly when both are whole. */
  lemma NumbersAntisymmetricExactly(p: bool, q: bool)
    ensures AntisymmetricOn(p, q) <==> p && q
  {
    Neighbours(0);
    var a, b, c := 0.0, 0.0000000008, 0.0000000016;
    if !p && q {
      assert Pattern(p, q, b, a) && Accepts(b, a) && Accepts(a, b);
    } else if p && !q {
      assert Pattern(p, q, a, b) && Accepts(a, b) && Accepts(b, a);
    } else if !p && !q {
      assert Pattern(p, q, b, c) && Accepts(b, c) && Accepts(c, b);
    }
  }

  /** Two whole numbers among three are enough to chain acceptance. */
  lemma TwoWholeChain(a: real, b: real, c: real)
    requires Accepts(a, b) && Accepts(b, c)
    requires (Integral(a) && Integral(b)) || (Integral(b) && Integral(c)) || (Integral(a) && Integral(c))
    ensures Accepts(a, c)
  {
    if Integral(a) && Integral(c) && !Integral(b) {
      WholeNumbers(a, c);
    }
  }

  /** Acceptance chains over three numbers for sure exactly when at least two of them are whole. */
  lemma NumbersTransitiveExactly(p: bool, q: bool, r: bool)
    ensures TransitiveOn(p, q, r) <==> (p && q) || (q && r) || (p && r)
  {
    if (p && q) || (q && r) || (p && r) {
      forall a: real, b: real, c: real | Pattern(p, q, a, b) && Integral(c) == r && Accepts(a, b) && Accepts(b, c)
        ensures Accepts(a, c)
      {
        TwoWholeChain(a, b, c);
      }
    } else {
      Neighbours(0);
      FractionsBreakTransitivity();
      var z, a, b, c := -0.0000000008, 0.0, 0.0000000008, 0.0000000016;
      if p {
        assert Pattern(p, q, a, b) && Integral(c) == r && Accepts(a, b) && Accepts(b, c) && !Accepts(a, c);
      } else if q {
        assert Pattern(p, q, z, a) && Integral(b) == r && Accepts(z, a) && Accepts(a, b) && !Accepts(z, b);
      } else if r {
        assert Pattern(p, q, c, b) && Integral(a) == r && Accepts(c, b) && Accepts(b, a) && !Accepts(c, a);
      }
    }
  }

  /** Three fractions, each accepting the next, of which the first refuses the last. */
  lemma FractionsBreakTransitivity()
    ensures !TransitiveOn(false, false, false)
  {
    var a, b, c := 0.5, 0.5000000008, 0.5000000016;
    assert !Integral(a) && !Integral(b) && !Integral(c);
    assert Pattern(false, false, a, b) && Accepts(a, b) && Accepts(b, c) && !Accepts(a, c);
  }

  /** Wherever three values all have a number, at least two of the three are whole. */
  predicate MostlyWhole(a: Value, b: Value, c: Value)
    decreases a
  {
    match a
    case Num(x) =>
      b.Num? && c.Num? ==>
        (Integral(x) && Integral(b.n)) || (Integral(b.n) && Integral(c.n)) || (Integral(x) && Integral(c.n))
    case Arr(items) =>
      b.Arr? && c.Arr? && |items| == |b.items| == |c.items| ==>
        forall i :: 0 <= i < |items| ==> MostlyWhole(items[i], b.items[i], c.items[i])
    case Obj(fields) =>
      b.Obj? && c.Obj? ==>
        forall k :: k in fields && k in b.fields && k in c.fields ==> MostlyWhole(fields[k], b.fields[k], c.fields[k])
    case _ => true
  }

  /** No reserved string and no operator key, whatever the numbers. */
  predicate Unreserved(lib: Library, m: Value)
    decreases m
  {
    match m
    case Str(s) => Classify(lib, s) == Literal
    case Arr(items) => forall i :: 0 <= i < |items| ==> Unreserved(lib, items[i])
    case Obj(fields) => OperatorOf(fields) == Fields && forall k :: k in fields ==> Unreserved(lib, fields[k])
    case _ => true
  }

  lemma UnreservedField(lib: Library, m: Value, actual: map<string, Value>, key: string)
    requires Unreserved(lib, m)
    ensures MatchesField(lib, m, actual, key) <==> key in actual && Matches(lib, m, actual[key])
  {
  }

  /** On matchers without reserved words acceptance chains wherever two of three numbers are whole. */
  lemma {:induction false} MatchingIsTransitive(lib: Library, a: Value, b: Value, c: Value)
    requires Unreserved(lib, a) && Unreserved(lib, b) && MostlyWhole(a, b, c)
    requires Matches(lib, a, b) && Matches(lib, b, c)
    ensures Matches(lib, a, c)
    decreases a
  {
    match a {
      case Num(x) => TwoWholeChain(x, b.n, c.n);
      case Arr(items) =>
        forall i | 0 <= i < |items| ensures Matches(lib, items[i], c.items[i]) {
          MatchingIsTransitive(lib, items[i], b.items[i], c.items[i]);
        }
      case Obj(fields) =>
        forall k | k in fields ensures MatchesField(lib, fields[k], c.fields, k) {
          assert MatchesField(lib, fields[k], b.fields, k);
          UnreservedField(lib, fields[k], b.fields, k);
          assert MatchesField(lib, b.fields[k], c.fields, k);
          UnreservedField(lib, b.fields[k], c.fields, k);
          UnreservedField(lib, fields[k], c.fields, k);
          MatchingIsTransitive(lib, fields[k], b.fields[k], c.fields[k]);
        }
      case _ =>
    }
  }

  // -----------------------------------------------------------------------------------
  // Width monotonicity

  /** No "absent" object field and no contains: or not_contains:, wherever the matcher looks. */
  predicate WidthTolerant(lib: Library, m: Value)
    decreases m, 1
  {
    match m
    case Str(s) => !Classify(lib, s).Contains? && !Classify(lib, s).NotContains?
    case Arr(ms) => forall i :: 0 <= i < |ms| ==> WidthTolerant(lib, ms[i])
    case Obj(fields) =>
      (match OperatorOf(fields)
       case OpIn => ToleratesAll(lib, fields["$in"])
       case OpOr => ToleratesAll(lib, fields["$or"])
       case Fields => forall k :: k in fields ==> fields[k] != Str("absent") && WidthTolerant(lib, fields[k])
       case _ => true)
    case _ => true
  }

  predicate ToleratesAll(lib: Library, raw: Value)
    decreases raw, 2
  {
    AsList(raw).Some? ==> forall m :: m in AsList(raw).value ==> WidthTolerant(lib, m)
  }

  lemma ExtensionKeepsKind(lib: Library, kind: Kind, s: string, v: Value, w: Value)
    requires Extends(w, v) && !kind.Contains? && !kind.NotContains?
    requires MatchesKind(lib, kind, s, v)
    ensures MatchesKind(lib, kind, s, w)
  {
  }

  lemma {:induction false} SomeStillMatches(lib: Library, raw: Value, v: Value, w: Value)
    requires Extends(w, v) && ToleratesAll(lib, raw) && MatchesSome(lib, raw, v)
    ensures MatchesSome(lib, raw, w)
    decreases raw, 2
  {
    var m :| m in AsList(raw).value && Matches(lib, m, v);
    WidthMonotone(lib, m, v, w);
  }

  /** Adding object fields at any depth never turns a pass into a failure. */
  lemma {:induction false} WidthMonotone(lib: Library, m: Value, v: Value, w: Value)
    requires WidthTolerant(lib, m) && Extends(w, v) && Matches(lib, m, v)
    ensures Matches(lib, m, w)
    decreases m, 1
  {
    match m {
      case Str(s) => ExtensionKeepsKind(lib, Classify(lib, s), s, v, w);
      case Arr(ms) =>
        forall i | 0 <= i < |ms| ensures Matches(lib, ms[i], w.items[i]) {
          WidthMonotone(lib, ms[i], v.items[i], w.items[i]);
        }
      case Obj(fields) =>
        match OperatorOf(fields) {
          case OpIn => SomeStillMatches(lib, fields["$in"], v, w);
          case OpOr => SomeStillMatches(lib, fields["$or"], v, w);
          case Fields =>
            forall k | k in fields ensures MatchesField(lib, fields[k], w.fields, k) {
              assert MatchesField(lib, fields[k], v.fields, k);
              WidthMonotone(lib, fields[k], v.fields[k], w.fields[k]);
            }
          case _ =>
        }
      case _ =>
    }
  }

  /** The exclusion is needed: giving a value the field a matcher wants absent always fails it. */
  lemma AbsentFieldIsNotMonotone(lib: Library, fields: map<string, Value>, k: string, actual: map<string, Value>,
      x: Value)
    requires OperatorOf(fields) == Fields && k in fields && fields[k] == Str("absent") && k !in actual
    ensures Extends(Obj(actual[k := x]), Obj(actual))
    ensures !Matches(lib, Obj(fields), Obj(actual[k := x]))
  {
    FieldsDecide(lib, fields, Obj(actual[k := x]));
    assert !MatchesField(lib, fields[k], actual[k := x], k);
    forall j | j in actual ensures Extends(actual[k := x][j], actual[j]) {
      ExtendsReflexive(actual[j]);
    }
  }

  lemma ContainsOne(lib: Library, t: string, item: Value)
    ensures Matches(lib, Str("contains:" + t), Arr([item])) <==> t == Sprint(lib.render, item)
  {
    ListContains(lib, t, Arr([item]));
    RenderedIsSprint(lib, t);
    assert [item][0] == item;
  }

  lemma NotContainsOne(lib: Library, t: string, item: Value)
    ensures Matches(lib, Str("not_contains:" + t), Arr([item])) <==> t != Sprint(lib.render, item)
  {
    ListLacks(lib, t, Arr([item]));
    RenderedIsSprint(lib, t);
    assert [item][0] == item;
  }

  /** The matcher accepts v and refuses w. */
  ghost predicate TurnsAgainst(lib: Library, m: Value, v: Value, w: Value) { Matches(lib, m, v) && !Matches(lib, m, w) }

  /**
   So are the two others: where an item gets more fields, some contains: and some not_contains:
   turn from a pass into a failure exactly when the item is rendered differently.
   */
  lemma ContainsIsNotMonotone(lib: Library, item: Value, more: Value)
    requires Extends(more, item)
    ensures Extends(Arr([more]), Arr([item]))
    ensures (exists t :: TurnsAgainst(lib, Str("contains:" + t), Arr([item]), Arr([more])))
            <==> Sprint(lib.render, item) != Sprint(lib.render, more)
    ensures (exists t :: TurnsAgainst(lib, Str("not_contains:" + t), Arr([item]), Arr([more])))
            <==> Sprint(lib.render, item) != Sprint(lib.render, more)
  {
    var x, y := Sprint(lib.render, item), Sprint(lib.render, more);
    forall t
      ensures TurnsAgainst(lib, Str("contains:" + t), Arr([item]), Arr([more])) <==> x == t && y != t
      ensures TurnsAgainst(lib, Str("not_contains:" + t), Arr([item]), Arr([more])) <==> x != t && y == t
    {
      ContainsOne(lib, t, item);
      ContainsOne(lib, t, more);
      NotContainsOne(lib, t, item);
      NotContainsOne(lib, t, more);
    }
    if x != y {
      assert TurnsAgainst(lib, Str("contains:" + x), Arr([item]), Arr([more]));
      assert TurnsAgainst(lib, Str("not_contains:" + y), Arr([item]), Arr([more]));
    }
  }
}
