/**
 Variables: the entries of a map in key order, nested maps by reference
 (varsFromMap and valueRepr in cmd/exec-history-dap/serve.go).
 */
module DapVariables {
  import opened Json
  import opened DapProtocol

  type Refs = map<int, Fields>

  const FIRST_REF := 1000

  // -----------------------------------------------------------------------------------
  // The order of sort.Strings

  predicate Before(a: string, b: string) {
    b != "" && (a == "" || a[0] < b[0] || (a[0] == b[0] && Before(a[1..], b[1..])))
  }

  lemma {:induction false} BeforeIsTotal(a: string, b: string)
    ensures a == b || Before(a, b) || Before(b, a)
    ensures !(Before(a, b) && Before(b, a)) && !Before(a, a)
    decreases |a|
  {
    if a != "" {
      BeforeIsTotal(a[1..], a[1..]);
      if b != "" {
        BeforeIsTotal(a[1..], b[1..]);
        if a[0] == b[0] && a[1..] == b[1..] {
          assert a == [a[0]] + a[1..] == b;
        }
      }
    }
  }

  lemma {:induction false} BeforeIsTransitive(a: string, b: string, c: string)
    requires Before(a, b) && Before(b, c)
    ensures Before(a, c)
    decreases |a|
  {
    if a != "" && a[0] == b[0] == c[0] {
      BeforeIsTransitive(a[1..], b[1..], c[1..]);
    }
  }

  predicate Ascending(keys: seq<string>) {
    forall i, j :: 0 <= i < j < |keys| ==> Before(keys[i], keys[j])
  }

  predicate IsLeast(keys: set<string>, least: string) {
    least in keys && forall k :: k in keys ==> k == least || Before(least, k)
  }

  lemma {:induction false} LeastExists(keys: set<string>)
    requires keys != {}
    ensures exists least :: IsLeast(keys, least)
    decreases keys
  {
    var some :| some in keys;
    if keys == {some} {
      assert IsLeast(keys, some);
    } else {
      var rest := keys - {some};
      assert rest != {};
      LeastExists(rest);
      var least :| IsLeast(rest, least);
      BeforeIsTotal(some, least);
      if Before(some, least) {
        forall k | k in keys ensures k == some || Before(some, k) {
          if k != some && k != least { BeforeIsTransitive(some, least, k); }
        }
        assert IsLeast(keys, some);
      } else {
        assert IsLeast(keys, least);
      }
    }
  }

  lemma LeastIsUnique(keys: set<string>, a: string, b: string)
    requires IsLeast(keys, a) && IsLeast(keys, b)
    ensures a == b
  {
    BeforeIsTotal(a, b);
  }

  function Least(keys: set<string>): (least: string)
    requires keys != {}
    ensures IsLeast(keys, least)
  {
    LeastExists(keys);
    assert forall a, b :: IsLeast(keys, a) && IsLeast(keys, b) ==> a == b by {
      forall a, b | IsLeast(keys, a) && IsLeast(keys, b) ensures a == b { LeastIsUnique(keys, a, b); }
    }
    var least :| IsLeast(keys, least);
    least
  }

  /** The keys of a map, sorted. */
  function Sorted(keys: set<string>): (order: seq<string>)
    ensures Ascending(order)
    ensures forall k :: k in order <==> k in keys
    decreases |keys|
  {
    if keys == {} then []
    else
      var least := Least(keys);
      var rest := Sorted(keys - {least});
      assert forall i :: 0 <= i < |rest| ==> rest[i] in rest;
      assert forall k :: k in [least] + rest <==> k == least || k in rest;
      [least] + rest
  }

  /** No other ascending list has the same keys, so the order of map iteration cannot matter. */
  lemma {:induction false} SortedIsUnique(keys: set<string>, order: seq<string>)
    requires Ascending(order) && forall k :: k in order <==> k in keys
    ensures order == Sorted(keys)
    decreases |order|
  {
    if order == [] {
      assert forall k :: k !in keys;
    } else {
      assert order[0] in order;
      assert order[0] in keys;
      var least := Least(keys);
      assert forall k :: k in keys ==> k in order;
      assert IsLeast(keys, order[0]);
      LeastIsUnique(keys, least, order[0]);
      assert order == [order[0]] + order[1..];
      forall k ensures k in order[1..] <==> k in keys - {least} {
        BeforeIsTotal(order[0], k);
      }
      SortedIsUnique(keys - {least}, order[1..]);
    }
  }

  // -----------------------------------------------------------------------------------
  // Listing a map

  const ELLIPSIS := "{...}"

  /** The value shown for a leaf. Rendering as JSON is a library matter and comes in as a parameter. */
  function ValueRepr(marshal: Value -> string, v: Value): string {
    match v
    case Null => "null"
    case Str(s) => s
    case _ => marshal(v)
  }

  datatype Listing = Listing(variables: seq<Variable>, refs: Refs, next: int)

  /** The entries under the given keys; each nested map gets the next free reference. */
  function List(marshal: Value -> string, fields: Fields, keys: seq<string>, refs: Refs, next: int): Listing
  {
    if keys == [] then Listing([], refs, next)
    else
      var k, v := keys[0], Lookup(fields, keys[0]);
      if v.Obj? then
        var rest := List(marshal, fields, keys[1..], refs[next := v.fields], next + 1);
        rest.(variables := [Variable(k, ELLIPSIS, next)] + rest.variables)
      else
        var rest := List(marshal, fields, keys[1..], refs, next);
        rest.(variables := [Variable(k, ValueRepr(marshal, v), 0)] + rest.variables)
  }

  /** One turn of the loop, at the key at i. */
  lemma ListNext(marshal: Value -> string, fields: Fields, keys: seq<string>, i: nat, refs: Refs, next: int)
    requires i < |keys|
    ensures var v := Lookup(fields, keys[i]);
            var l := List(marshal, fields, keys[i..], refs, next);
            var rest := if v.Obj? then List(marshal, fields, keys[i + 1..], refs[next := v.fields], next + 1)
                        else List(marshal, fields, keys[i + 1..], refs, next);
            var entry :=
              if v.Obj? then Variable(keys[i], ELLIPSIS, next) else Variable(keys[i], ValueRepr(marshal, v), 0);
            l.refs == rest.refs && l.next == rest.next && l.variables == [entry] + rest.variables
  {
    assert keys[i..][0] == keys[i] && keys[i..][1..] == keys[i + 1..];
  }

  /** References are handed out in sequence: those below next and no others are taken. */
  ghost predicate Taken(refs: Refs, next: int) {
    FIRST_REF <= next && forall r :: r in refs <==> FIRST_REF <= r < next
  }

  /** Later references know everything earlier ones did. */
  ghost predicate Keeps(before: Refs, after: Refs) {
    forall r :: r in before ==> r in after && after[r] == before[r]
  }

  /** What one entry shows of the value under its key. */
  ghost predicate Shows(marshal: Value -> string, v: Value, shown: Variable, refs: Refs, key: string) {
    shown.name == key &&
    if v.Obj? then shown.value == ELLIPSIS && shown.ref in refs && refs[shown.ref] == v.fields
    else shown.value == ValueRepr(marshal, v) && shown.ref == 0
  }

  /** Every entry names its key and shows its value, by a reference from next on if it is nested. */
  ghost predicate ShowsAll(marshal: Value -> string, fields: Fields, keys: seq<string>, l: Listing, next: int)
  {
    |l.variables| == |keys| &&
    (forall i :: 0 <= i < |keys| ==> Shows(marshal, Lookup(fields, keys[i]), l.variables[i], l.refs, keys[i])) &&
    (forall v :: v in l.variables ==> v.ref == 0 || next <= v.ref < l.next)
  }

  lemma ShowsOneMore(marshal: Value -> string, fields: Fields, keys: seq<string>, rest: Listing, next: int,
      first: Variable, start: int)
    requires keys != []
    requires ShowsAll(marshal, fields, keys[1..], rest, next)
    requires Shows(marshal, Lookup(fields, keys[0]), first, rest.refs, keys[0])
    requires start <= next && (first.ref == 0 || start <= first.ref < rest.next)
    ensures ShowsAll(marshal, fields, keys, rest.(variables := [first] + rest.variables), start)
  {
    var variables := [first] + rest.variables;
    forall i | 0 <= i < |keys|
      ensures Shows(marshal, Lookup(fields, keys[i]), variables[i], rest.refs, keys[i])
    {
      if i > 0 {
        assert Shows(marshal, Lookup(fields, keys[1..][i - 1]), rest.variables[i - 1], rest.refs, keys[1..][i - 1]);
      }
    }
  }

  lemma TakeNext(refs: Refs, next: int, fields: Fields)
    requires Taken(refs, next)
    ensures Taken(refs[next := fields], next + 1) && Keeps(refs, refs[next := fields])
  {
  }

  /** No reference handed out before is lost or changed. */
  lemma {:induction false} ListGrows(marshal: Value -> string, fields: Fields, keys: seq<string>, refs: Refs, next: int)
    requires Taken(refs, next)
    ensures var l := List(marshal, fields, keys, refs, next);
            next <= l.next && Taken(l.refs, l.next) && Keeps(refs, l.refs)
    decreases |keys|
  {
    if keys != [] {
      var v := Lookup(fields, keys[0]);
      if v.Obj? {
        TakeNext(refs, next, v.fields);
        ListGrows(marshal, fields, keys[1..], refs[next := v.fields], next + 1);
      } else {
        ListGrows(marshal, fields, keys[1..], refs, next);
      }
    }
  }

  /** The listing shows the whole map. */
  lemma {:induction false} ListShows(marshal: Value -> string, fields: Fields, keys: seq<string>, refs: Refs, next: int)
    requires Taken(refs, next)
    ensures ShowsAll(marshal, fields, keys, List(marshal, fields, keys, refs, next), next)
    decreases |keys|
  {
    if keys != [] {
      ListShowsFirst(marshal, fields, keys, refs, next);
      var v := Lookup(fields, keys[0]);
      if v.Obj? {
        TakeNext(refs, next, v.fields);
        ListShows(marshal, fields, keys[1..], refs[next := v.fields], next + 1);
        ShowsOneMore(marshal, fields, keys, List(marshal, fields, keys[1..], refs[next := v.fields], next + 1),
          next + 1, Variable(keys[0], ELLIPSIS, next), next);
      } else {
        ListShows(marshal, fields, keys[1..], refs, next);
        ShowsOneMore(marshal, fields, keys, List(marshal, fields, keys[1..], refs, next), next,
          Variable(keys[0], ValueRepr(marshal, v), 0), next);
      }
    }
  }

  lemma ListShowsFirst(marshal: Value -> string, fields: Fields, keys: seq<string>, refs: Refs, next: int)
    requires Taken(refs, next) && keys != []
    ensures var l := List(marshal, fields, keys, refs, next);
            l.variables != [] && Shows(marshal, Lookup(fields, keys[0]), l.variables[0], l.refs, keys[0]) &&
            (l.variables[0].ref == 0 || next <= l.variables[0].ref < l.next)
  {
    var v := Lookup(fields, keys[0]);
    if v.Obj? {
      TakeNext(refs, next, v.fields);
      ListGrows(marshal, fields, keys[1..], refs[next := v.fields], next + 1);
      assert next in refs[next := v.fields];
    }
  }
}
