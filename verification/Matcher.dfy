/**
 The matcher language of the assertions (lib/assertions.go, MatchAssertion and its helpers):
 a matcher is itself a decoded JSON value. Only success or failure is modelled.
 */
module Matcher {
  import opened Text
  import opened Decimal
  import opened Json

  /**
   What the matchers take from Go's libraries: the %v rendering, the compiled patterns, and
   the numbers inside the texts "number:range(a,b)", "array:length(n)" and "~x".
   */
  datatype Library = Library(
    render: Value -> string,
    isUuid: string -> bool,
    isUuidV7: string -> bool,
    isDatetime: string -> bool,
    parseRange: string -> Option<(real, real)>,
    parseLength: string -> Option<int>,
    parseApprox: string -> Option<real>,
    regexMatch: (string, string) -> bool)

  // -----------------------------------------------------------------------------------
  // String matchers

  datatype Kind =
    | Any | Absent | Exists
    | StringNonempty | StringUuid | StringUuidV7 | StringDatetime
    | NumberPositive | NumberNonNegative
    | ArrayNonempty | ArrayEmpty
    | ArrayMin(min: Option<int>) | ArrayLength(length: Option<int>)
    | Contains(target: string) | NotContains(target: string)
    | StringContains(substr: string)
    | NumberRange(lo: real, hi: real)
    | Approximate(expected: real)
    | StringPattern(pattern: string)
    | Literal

  /** strings.TrimPrefix, for a prefix known to be there. */
  function After(s: string, prefix: string): string
    requires prefix <= s
  {
    s[|prefix|..]
  }

  /** The words that stand for themselves. */
  function WordKind(s: string): Option<Kind> {
    if s == "any" then Some(Any)
    else if s == "absent" then Some(Absent)
    else if s == "exists" then Some(Exists)
    else if s == "string:nonempty" || s == "string:non_empty" then Some(StringNonempty)
    else if s == "string:uuid" then Some(StringUuid)
    else if s == "string:uuidv7" then Some(StringUuidV7)
    else if s == "string:datetime" then Some(StringDatetime)
    else if s == "number:positive" then Some(NumberPositive)
    else if s == "number:non_negative" then Some(NumberNonNegative)
    else if s == "array:nonempty" then Some(ArrayNonempty)
    else if s == "array:empty" then Some(ArrayEmpty)
    else None
  }

  /** Which matcher a string is; the order of the tests is the order of the source. */
  function Classify(lib: Library, s: string): Kind {
    match WordKind(s) case Some(kind) => kind case None => ClassifyPrefixed(lib, s)
  }

  function ClassifyPrefixed(lib: Library, s: string): Kind {
    if "array:min_length:" <= s then ArrayMin(Atoi(After(s, "array:min_length:")))
    else if "array:min:" <= s then ArrayMin(Atoi(After(s, "array:min:")))
    else if "array:length:" <= s then ArrayLength(Atoi(After(s, "array:length:")))
    else if "contains:" <= s then Contains(After(s, "contains:"))
    else if "not_contains:" <= s then NotContains(After(s, "not_contains:"))
    else if "string:contains:" <= s then StringContains(After(s, "string:contains:"))
    else if lib.parseRange(s).Some? then NumberRange(lib.parseRange(s).value.0, lib.parseRange(s).value.1)
    else if lib.parseLength(s).Some? then ArrayLength(lib.parseLength(s))
    else if lib.parseApprox(s).Some? then Approximate(lib.parseApprox(s).value)
    else if "string:pattern(" <= s && s[|s| - 1] == ')' then
      StringPattern(s[|"string:pattern("|..|s| - 1])
    else Literal
  }

  function Abs(x: real): real { if x < 0.0 then -x else x }

  predicate MatchesKind(lib: Library, kind: Kind, s: string, v: Value) {
    match kind
    case Any => true
    case Absent => v.Null?
    case Exists => !v.Null?
    case StringNonempty => v.Str? && v.s != ""
    case StringUuid => v.Str? && lib.isUuid(v.s)
    case StringUuidV7 => v.Str? && lib.isUuidV7(v.s)
    case StringDatetime => v.Str? && lib.isDatetime(v.s)
    case NumberPositive => v.Num? && v.n > 0.0
    case NumberNonNegative => v.Num? && v.n >= 0.0
    case ArrayNonempty => v.Arr? && |v.items| > 0
    case ArrayEmpty => v.Arr? && |v.items| == 0
    case ArrayMin(min) => min.Some? && v.Arr? && |v.items| >= min.value
    case ArrayLength(length) => length.Some? && v.Arr? && |v.items| == length.value
    case Contains(target) => v.Arr? && exists item :: item in v.items && Sprint(lib.render, item) == target
    case NotContains(target) => v.Arr? && forall item :: item in v.items ==> Sprint(lib.render, item) != target
    case StringContains(substr) => v.Str? && IndexOf(v.s, substr) >= 0
    case NumberRange(lo, hi) => v.Num? && lo <= v.n <= hi
    case Approximate(expected) => v.Num? && Abs(v.n - expected) <= expected * 50.0 / 100.0
    case StringPattern(pattern) => v.Str? && lib.regexMatch(pattern, v.s)
    case Literal => v == Str(s)
  }

  predicate MatchesString(lib: Library, s: string, v: Value) {
    MatchesKind(lib, Classify(lib, s), s, v)
  }

  // -----------------------------------------------------------------------------------
  // Numbers

  predicate Integral(x: real) { x == x.Floor as real }

  /** Integers compare exactly, other numbers up to 1e-9. */
  predicate MatchesNumber(expected: real, v: Value) {
    v.Num? &&
    if Integral(expected) && Integral(v.n) then expected == v.n
    else Abs(expected - v.n) <= 0.000000001
  }

  // -----------------------------------------------------------------------------------
  // json.Unmarshal into a Go variable: null leaves the zero value, a wrong type fails

  function AsInt(v: Value): Option<int> {
    match v
    case Null => Some(0)
    case Num(n) => if Integral(n) && FitsInt64(n.Floor) then Some(n.Floor) else None
    case _ => None
  }

  function AsFloat(v: Value): Option<real> {
    match v case Null => Some(0.0) case Num(n) => Some(n) case _ => None
  }

  function AsString(v: Value): Option<string> {
    match v case Null => Some("") case Str(s) => Some(s) case _ => None
  }

  function AsBool(v: Value): Option<bool> {
    match v case Null => Some(false) case Bool(b) => Some(b) case _ => None
  }

  function AsList(v: Value): (r: Option<seq<Value>>)
    ensures r.Some? ==> forall m :: m in r.value ==> m < v
  {
    match v case Null => Some([]) case Arr(items) => Some(items) case _ => None
  }

  function AsMap(v: Value): Option<map<string, Value>> {
    match v case Null => Some(map[]) case Obj(fields) => Some(fields) case _ => None
  }

  function JsonType(v: Value): string {
    match v
    case Str(_) => "string"
    case Num(_) => "number"
    case Bool(_) => "boolean"
    case Null => "null"
    case Arr(_) => "array"
    case Obj(_) => "object"
  }

  // -----------------------------------------------------------------------------------
  // Matching

  /** What an object matcher asks for, in the order the source looks for operator keys. */
  datatype Operator = OpExists | OpMatch | OpIn | OpSize | OpOr | OpEmpty | OpRange | Fields

  function OperatorOf(fields: map<string, Value>): (op: Operator)
    ensures op == OpExists ==> "$exists" in fields
    ensures op == OpMatch ==> "$match" in fields
    ensures op == OpIn ==> "$in" in fields
    ensures op == OpSize ==> "$size" in fields
    ensures op == OpOr ==> "$or" in fields
    ensures op == OpRange ==> "range" in fields
  {
    if "$exists" in fields then OpExists
    else if "$match" in fields then OpMatch
    else if "$in" in fields then OpIn
    else if "$size" in fields then OpSize
    else if "$or" in fields then OpOr
    else if "$empty" in fields then OpEmpty
    else if "range" in fields then OpRange
    else Fields
  }

  /** MatchAssertion(m, v) == nil. */
  predicate Matches(lib: Library, m: Value, v: Value)
    decreases m, 1
  {
    match m
    case Null => v.Null?
    case Str(s) => MatchesString(lib, s, v)
    case Num(n) => MatchesNumber(n, v)
    case Bool(b) => v == Bool(b)
    case Arr(ms) =>
      v.Arr? && |v.items| == |ms| && forall i :: 0 <= i < |ms| ==> Matches(lib, ms[i], v.items[i])
    case Obj(fields) =>
      match OperatorOf(fields)
      case OpExists => MatchesExists(fields, v)
      case OpMatch => MatchesRegex(lib, fields["$match"], v)
      case OpIn => MatchesSome(lib, fields["$in"], v)
      case OpSize => v.Arr? && MatchesSize(fields["$size"], |v.items|)
      case OpOr => MatchesSome(lib, fields["$or"], v)
      case OpEmpty => true
      case OpRange => MatchesRange(fields["range"], v)
      case Fields => v.Obj? && forall k :: k in fields ==> MatchesField(lib, fields[k], v.fields, k)
  }

  /** One field of an object matcher: "absent" asks that the key be missing. */
  predicate MatchesField(lib: Library, m: Value, actual: map<string, Value>, key: string)
    decreases m, 2
  {
    if m == Str("absent") then key !in actual
    else key in actual && Matches(lib, m, actual[key])
  }

  predicate MatchesExists(fields: map<string, Value>, v: Value)
    requires "$exists" in fields
  {
    var wanted := AsBool(fields["$exists"]);
    wanted.Some? && wanted.value == !v.Null? &&
    ("$type" in fields && AsString(fields["$type"]).Some? ==> JsonType(v) == AsString(fields["$type"]).value)
  }

  predicate MatchesRegex(lib: Library, raw: Value, v: Value) {
    AsString(raw).Some? && v.Str? && lib.regexMatch(AsString(raw).value, v.s)
  }

  /** $in and $or: some element of the list matches. */
  predicate MatchesSome(lib: Library, raw: Value, v: Value)
    decreases raw, 2
  {
    var list := AsList(raw);
    list.Some? && exists m :: m in list.value && Matches(lib, m, v)
  }

  predicate MatchesSize(raw: Value, size: nat) {
    if AsInt(raw).Some? then size == AsInt(raw).value
    else
      AsMap(raw).Some? && "$gte" in AsMap(raw).value &&
      AsInt(AsMap(raw).value["$gte"]).Some? && size >= AsInt(AsMap(raw).value["$gte"]).value
  }

  predicate MatchesRange(raw: Value, v: Value) {
    AsMap(raw).Some? && v.Num? &&
    (var bounds := AsMap(raw).value;
     ("min" in bounds && AsFloat(bounds["min"]).Some? ==> AsFloat(bounds["min"]).value <= v.n) &&
     ("max" in bounds && AsFloat(bounds["max"]).Some? ==> v.n <= AsFloat(bounds["max"]).value))
  }

  // -----------------------------------------------------------------------------------
  // The loop over an object matcher's fields

  predicate AllFieldsMatch(lib: Library, fields: map<string, Value>, actual: map<string, Value>) {
    forall k :: k in fields ==> MatchesField(lib, fields[k], actual, k)
  }

  /** An object matcher without operators accepts by its fields alone. */
  lemma FieldsDecide(lib: Library, fields: map<string, Value>, v: Value)
    requires OperatorOf(fields) == Fields
    ensures Matches(lib, Obj(fields), v) <==> v.Obj? && AllFieldsMatch(lib, fields, v.fields)
  {
  }

  datatype Verdict = AllMatch | Mismatch(key: string)

  /**
   The field loop of matchObjectAssertion. Go visits map keys in no fixed order, so each turn
   takes any key not visited yet. Whatever the order, the loop succeeds exactly when the
   matcher matches; the order only decides which of the failing fields is reported.
   */
  method MatchFields(lib: Library, fields: map<string, Value>, actual: map<string, Value>) returns (verdict: Verdict)
    ensures verdict == AllMatch <==> AllFieldsMatch(lib, fields, actual)
    ensures OperatorOf(fields) == Fields ==> (verdict == AllMatch <==> Matches(lib, Obj(fields), Obj(actual)))
    ensures verdict.Mismatch? ==>
      verdict.key in fields && !MatchesField(lib, fields[verdict.key], actual, verdict.key)
  {
    if OperatorOf(fields) == Fields {
      FieldsDecide(lib, fields, Obj(actual));
    }
    var rest := fields.Keys;
    while rest != {}
      invariant rest <= fields.Keys
      invariant forall k :: k in fields && k !in rest ==> MatchesField(lib, fields[k], actual, k)
      decreases |rest|
    {
      var key :| key in rest;
      rest := rest - {key};
      var exp := fields[key];
      if exp == Str("absent") {
        if key in actual {
          return Mismatch(key);
        }
      } else if key !in actual || !Matches(lib, exp, actual[key]) {
        return Mismatch(key);
      }
      assert MatchesField(lib, exp, actual, key);
    }
    return AllMatch;
  }
}
