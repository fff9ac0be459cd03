/**
 What each matcher accepts, word by word and operator by operator, on the matcher as it is
 written (lib/assertions.go, matchStringAssertion, matchNumberAssertion, matchObjectAssertion).
 */
module MatcherMeaning {
  import opened Text
  import opened Decimal
  import opened Json
  import opened Matcher

  // -----------------------------------------------------------------------------------
  // Reserved words

  lemma WordMatches(lib: Library, s: string, v: Value)
    ensures WordKind(s).Some? ==> (Matches(lib, Str(s), v) <==> MatchesKind(lib, WordKind(s).value, s, v))
    ensures WordKind(s).None? ==> (Matches(lib, Str(s), v) <==> MatchesKind(lib, ClassifyPrefixed(lib, s), s, v))
  {
  }

  lemma WordsOfPresence(lib: Library, v: Value)
    ensures Matches(lib, Str("any"), v)
    ensures Matches(lib, Str("absent"), v) <==> v == Null
    ensures Matches(lib, Str("exists"), v) <==> v != Null
  {
    WordMatches(lib, "any", v);
    WordMatches(lib, "absent", v);
    WordMatches(lib, "exists", v);
  }

  lemma StringWords()
    ensures WordKind("string:nonempty") == WordKind("string:non_empty") == Some(StringNonempty)
    ensures WordKind("string:uuid") == Some(StringUuid) && WordKind("string:uuidv7") == Some(StringUuidV7)
    ensures WordKind("string:datetime") == Some(StringDatetime)
  {
  }

  lemma WordsForStrings(lib: Library, v: Value)
    ensures Matches(lib, Str("string:nonempty"), v) <==> v.Str? && v.s != ""
    ensures Matches(lib, Str("string:non_empty"), v) <==> v.Str? && v.s != ""
    ensures Matches(lib, Str("string:uuid"), v) <==> v.Str? && lib.isUuid(v.s)
    ensures Matches(lib, Str("string:uuidv7"), v) <==> v.Str? && lib.isUuidV7(v.s)
    ensures Matches(lib, Str("string:datetime"), v) <==> v.Str? && lib.isDatetime(v.s)
  {
    StringWords();
    WordMatches(lib, "string:nonempty", v);
    WordMatches(lib, "string:non_empty", v);
    WordMatches(lib, "string:uuid", v);
    WordMatches(lib, "string:uuidv7", v);
    WordMatches(lib, "string:datetime", v);
  }

  lemma OtherWords()
    ensures WordKind("number:positive") == Some(NumberPositive)
    ensures WordKind("number:non_negative") == Some(NumberNonNegative)
    ensures WordKind("array:nonempty") == Some(ArrayNonempty) && WordKind("array:empty") == Some(ArrayEmpty)
  {
  }

  lemma WordsForNumbers(lib: Library, v: Value)
    ensures Matches(lib, Str("number:positive"), v) <==> v.Num? && v.n > 0.0
    ensures Matches(lib, Str("number:non_negative"), v) <==> v.Num? && v.n >= 0.0
  {
    OtherWords();
    WordMatches(lib, "number:positive", v);
    WordMatches(lib, "number:non_negative", v);
  }

  lemma WordsForArrays(lib: Library, v: Value)
    ensures Matches(lib, Str("array:nonempty"), v) <==> v.Arr? && v.items != []
    ensures Matches(lib, Str("array:empty"), v) <==> v.Arr? && v.items == []
  {
    OtherWords();
    WordMatches(lib, "array:nonempty", v);
    WordMatches(lib, "array:empty", v);
  }

  // -----------------------------------------------------------------------------------
  // Words with an argument

  /** None of the fixed words has such characters at these places. */
  lemma NoWordForArrays(s: string)
    requires |s| > 6 && (s[6] == 'm' || s[6] == 'l')
    ensures WordKind(s) == None
  {
  }

  lemma NoWordAfterColon(s: string)
    requires |s| > 7 && s[6] == ':'
    requires (s[0] == 's' && (s[7] == 'c' || s[7] == 'p')) || (s[0] == 'n' && s[7] == 'r')
    ensures WordKind(s) == None
  {
  }

  lemma NoWordAtAll(s: string)
    requires |s| > 1 && (s[0] == 'c' || s[0] == '~' || (s[0] == 'n' && s[1] == 'o'))
    ensures WordKind(s) == None
  {
  }

  lemma PrefixMinLength(lib: Library, t: string)
    ensures ClassifyPrefixed(lib, "array:min_length:" + t) == ArrayMin(Atoi(t))
  {
    assert ("array:min_length:" + t)[17..] == t;
  }

  lemma PrefixMin(lib: Library, t: string)
    ensures ClassifyPrefixed(lib, "array:min:" + t) == ArrayMin(Atoi(t))
  {
    var s := "array:min:" + t;
    assert s[9] == ':' && s[10..] == t;
    assert "array:min_length:"[9] == '_';
  }

  lemma PrefixLength(lib: Library, t: string)
    ensures ClassifyPrefixed(lib, "array:length:" + t) == ArrayLength(Atoi(t))
  {
    var s := "array:length:" + t;
    assert s[6] == 'l' && s[13..] == t;
    assert "array:min_length:"[6] == 'm' && "array:min:"[6] == 'm';
  }

  /** array:min_length: and array:min: ask for so many items or more; nothing fits a length that is no number. */
  lemma MinLength(lib: Library, t: string, v: Value)
    ensures Matches(lib, Str("array:min_length:" + t), v)
      <==> v.Arr? && Atoi(t).Some? && |v.items| >= Atoi(t).value
    ensures Matches(lib, Str("array:min:" + t), v) <==> v.Arr? && Atoi(t).Some? && |v.items| >= Atoi(t).value
  {
    assert ("array:min_length:" + t)[6] == 'm' && ("array:min:" + t)[6] == 'm';
    NoWordForArrays("array:min_length:" + t);
    NoWordForArrays("array:min:" + t);
    WordMatches(lib, "array:min_length:" + t, v);
    WordMatches(lib, "array:min:" + t, v);
    PrefixMinLength(lib, t);
    PrefixMin(lib, t);
  }

  /** array:length: asks for exactly as many. */
  lemma Length(lib: Library, t: string, v: Value)
    ensures Matches(lib, Str("array:length:" + t), v) <==> v.Arr? && Atoi(t).Some? && |v.items| == Atoi(t).value
  {
    assert ("array:length:" + t)[6] == 'l';
    NoWordForArrays("array:length:" + t);
    WordMatches(lib, "array:length:" + t, v);
    PrefixLength(lib, t);
  }

  predicate RenderedAs(lib: Library, v: Value, text: string) {
    match v case Str(s) => s == text case _ => lib.render(v) == text
  }

  lemma PrefixContains(lib: Library, t: string)
    ensures ClassifyPrefixed(lib, "contains:" + t) == Contains(t)
  {
    assert ("contains:" + t)[0] == 'c' && ("contains:" + t)[9..] == t;
  }

  lemma PrefixNotContains(lib: Library, t: string)
    ensures ClassifyPrefixed(lib, "not_contains:" + t) == NotContains(t)
  {
    assert ("not_contains:" + t)[0] == 'n' && ("not_contains:" + t)[13..] == t;
  }

  /** contains: asks for an item that is rendered so. */
  lemma ListContains(lib: Library, t: string, v: Value)
    ensures Matches(lib, Str("contains:" + t), v)
      <==> v.Arr? && exists i :: 0 <= i < |v.items| && RenderedAs(lib, v.items[i], t)
  {
    assert ("contains:" + t)[0] == 'c';
    NoWordAtAll("contains:" + t);
    WordMatches(lib, "contains:" + t, v);
    PrefixContains(lib, t);
    RenderedIsSprint(lib, t);
  }

  /** not_contains: asks for a list without one. */
  lemma ListLacks(lib: Library, t: string, v: Value)
    ensures Matches(lib, Str("not_contains:" + t), v)
      <==> v.Arr? && forall i :: 0 <= i < |v.items| ==> !RenderedAs(lib, v.items[i], t)
  {
    assert ("not_contains:" + t)[0] == 'n' && ("not_contains:" + t)[1] == 'o';
    NoWordAtAll("not_contains:" + t);
    WordMatches(lib, "not_contains:" + t, v);
    PrefixNotContains(lib, t);
    RenderedIsSprint(lib, t);
  }

  lemma RenderedIsSprint(lib: Library, t: string)
    ensures forall v :: RenderedAs(lib, v, t) <==> Sprint(lib.render, v) == t
  {
  }

  lemma PrefixStringContains(lib: Library, t: string)
    ensures ClassifyPrefixed(lib, "string:contains:" + t) == StringContains(t)
  {
    assert ("string:contains:" + t)[0] == 's' && ("string:contains:" + t)[16..] == t;
  }

  lemma FoundInside(s: string, t: string)
    ensures IndexOf(s, t) >= 0 <==> exists before, after :: s == (before + t) + after
  {
    var i := IndexOf(s, t);
    if i >= 0 {
      assert s == (s[..i] + t) + s[i + |t|..];
    }
    forall before, after | s == (before + t) + after ensures OccursAt(s, t, |before|) { }
  }

  /** string:contains: asks for the text somewhere in the string. */
  lemma StringContaining(lib: Library, t: string, v: Value)
    ensures Matches(lib, Str("string:contains:" + t), v)
      <==> v.Str? && exists before, after :: v.s == (before + t) + after
  {
    var s := "string:contains:" + t;
    assert s[0] == 's' && s[6] == ':' && s[7] == 'c';
    NoWordAfterColon(s);
    WordMatches(lib, s, v);
    PrefixStringContains(lib, t);
    if v.Str? {
      FoundInside(v.s, t);
    }
  }

  /** A range is inclusive. */
  lemma NumberInRange(lib: Library, s: string, lo: real, hi: real, v: Value)
    requires "number:range(" <= s && lib.parseRange(s) == Some((lo, hi))
    ensures Matches(lib, Str(s), v) <==> v.Num? && lo <= v.n && v.n <= hi
  {
    assert s[0] == 'n' && s[6] == ':' && s[7] == 'r' && s[1] == 'u';
    NoWordAfterColon(s);
    WordMatches(lib, s, v);
    NoPrefixButRange(lib, s);
  }

  lemma NoPrefixButRange(lib: Library, s: string)
    requires |s| > 1 && s[0] == 'n' && s[1] == 'u' && lib.parseRange(s).Some?
    ensures ClassifyPrefixed(lib, s) == NumberRange(lib.parseRange(s).value.0, lib.parseRange(s).value.1)
  {
  }

  lemma ArrayOfLength(lib: Library, s: string, n: int, v: Value)
    requires "array:length(" <= s && lib.parseRange(s) == None && lib.parseLength(s) == Some(n)
    ensures Matches(lib, Str(s), v) <==> v.Arr? && |v.items| == n
  {
    assert s[0] == 'a' && s[6] == 'l' && s[12] == '(';
    NoWordForArrays(s);
    WordMatches(lib, s, v);
    NoPrefixButLength(lib, s);
  }

  lemma NoPrefixButLength(lib: Library, s: string)
    requires |s| > 12 && s[0] == 'a' && s[6] == 'l' && s[12] == '('
    requires lib.parseRange(s) == None && lib.parseLength(s).Some?
    ensures ClassifyPrefixed(lib, s) == ArrayLength(lib.parseLength(s))
  {
    assert "array:min_length:"[6] == 'm' && "array:min:"[6] == 'm' && "array:length:"[12] == ':';
  }

  /** ~x accepts what differs from x by half of x or less. */
  lemma NumberCloseTo(lib: Library, s: string, x: real, v: Value)
    requires "~" <= s && |s| > 1
    requires lib.parseRange(s) == None && lib.parseLength(s) == None && lib.parseApprox(s) == Some(x)
    ensures Matches(lib, Str(s), v) <==> v.Num? && x * 0.5 <= v.n && v.n <= x * 1.5
  {
    assert s[0] == '~';
    NoWordAtAll(s);
    WordMatches(lib, s, v);
    NoPrefixButApprox(lib, s);
  }

  lemma NoPrefixButApprox(lib: Library, s: string)
    requires s != "" && s[0] == '~'
    requires lib.parseRange(s) == None && lib.parseLength(s) == None && lib.parseApprox(s).Some?
    ensures ClassifyPrefixed(lib, s) == Approximate(lib.parseApprox(s).value)
  {
  }

  predicate NoNumbersIn(lib: Library, s: string) {
    lib.parseRange(s) == None && lib.parseLength(s) == None && lib.parseApprox(s) == None
  }

  lemma PrefixPattern(lib: Library, p: string)
    requires NoNumbersIn(lib, "string:pattern(" + (p + ")"))
    ensures ClassifyPrefixed(lib, "string:pattern(" + (p + ")")) == StringPattern(p)
  {
    var s := "string:pattern(" + (p + ")");
    assert s[0] == 's' && s[7] == 'p' && s[|s| - 1] == ')' && s[15..|s| - 1] == p;
    assert "string:contains:"[7] == 'c';
  }

  lemma StringLike(lib: Library, p: string, v: Value)
    requires NoNumbersIn(lib, "string:pattern(" + (p + ")"))
    ensures Matches(lib, Str("string:pattern(" + (p + ")")), v) <==> v.Str? && lib.regexMatch(p, v.s)
  {
    var s := "string:pattern(" + (p + ")");
    assert s[0] == 's' && s[6] == ':' && s[7] == 'p';
    NoWordAfterColon(s);
    WordMatches(lib, s, v);
    PrefixPattern(lib, p);
  }

  // -----------------------------------------------------------------------------------
  // Any other string stands for itself

  const WORDS := [
    "any", "absent", "exists", "string:nonempty", "string:non_empty", "string:uuid", "string:uuidv7",
    "string:datetime", "number:positive", "number:non_negative", "array:nonempty", "array:empty"]

  const PREFIXES := [
    "array:min_length:", "array:min:", "array:length:", "contains:", "not_contains:", "string:contains:"]

  predicate Reserved(lib: Library, s: string) {
    s in WORDS || (exists i :: 0 <= i < |PREFIXES| && PREFIXES[i] <= s) || !NoNumbersIn(lib, s) ||
    ("string:pattern(" <= s && s[|s| - 1] == ')')
  }

  lemma NoWord(s: string)
    requires s !in WORDS
    ensures WordKind(s) == None
  {
    assert forall i :: 0 <= i < |WORDS| ==> WORDS[i] != s;
    assert WORDS[0] != s && WORDS[1] != s && WORDS[2] != s && WORDS[3] != s && WORDS[4] != s && WORDS[5] != s;
    assert WORDS[6] != s && WORDS[7] != s && WORDS[8] != s && WORDS[9] != s && WORDS[10] != s && WORDS[11] != s;
  }

  lemma NoPrefix(lib: Library, s: string)
    requires (forall i :: 0 <= i < |PREFIXES| ==> !(PREFIXES[i] <= s)) && NoNumbersIn(lib, s)
    requires !("string:pattern(" <= s && s[|s| - 1] == ')')
    ensures ClassifyPrefixed(lib, s) == Literal
  {
    assert !(PREFIXES[0] <= s) && !(PREFIXES[1] <= s) && !(PREFIXES[2] <= s);
    assert !(PREFIXES[3] <= s) && !(PREFIXES[4] <= s) && !(PREFIXES[5] <= s);
  }

  /** A string that is neither a word nor starts like one accepts itself alone. */
  lemma OtherStrings(lib: Library, s: string, v: Value)
    requires !Reserved(lib, s)
    ensures Matches(lib, Str(s), v) <==> v == Str(s)
  {
    NoWord(s);
    NoPrefix(lib, s);
    WordMatches(lib, s, v);
  }

  // -----------------------------------------------------------------------------------
  // Numbers, booleans, arrays and objects

  /** Whole numbers match when equal, others up to a billionth. */
  lemma Numbers(lib: Library, x: real, v: Value)
    ensures Matches(lib, Num(x), v) <==>
      v.Num? && (if x == x.Floor as real && v.n == v.n.Floor as real then x == v.n
                 else x - 0.000000001 <= v.n && v.n <= x + 0.000000001)
  {
  }

  lemma NullsAndBooleans(lib: Library, b: bool, v: Value)
    ensures Matches(lib, Null, v) <==> v == Null
    ensures Matches(lib, Bool(b), v) <==> v == Bool(b)
  {
  }

  /** Arrays match item by item and have the same length. */
  lemma Arrays(lib: Library, ms: seq<Value>, v: Value)
    ensures Matches(lib, Arr(ms), v)
      <==> v.Arr? && |v.items| == |ms| && forall i :: 0 <= i < |ms| ==> Matches(lib, ms[i], v.items[i])
  {
  }

  predicate NoOperator(fields: map<string, Value>) {
    "$exists" !in fields && "$match" !in fields && "$in" !in fields && "$size" !in fields && "$or" !in fields &&
    "$empty" !in fields && "range" !in fields
  }

  /** Without operators each field must be there and match; one wanted absent must not be there. */
  lemma Objects(lib: Library, fields: map<string, Value>, v: Value)
    requires NoOperator(fields)
    ensures Matches(lib, Obj(fields), v) <==>
      v.Obj? && forall k :: k in fields ==>
        if fields[k] == Str("absent") then k !in v.fields else k in v.fields && Matches(lib, fields[k], v.fields[k])
  {
    FieldsDecide(lib, fields, v);
    if v.Obj? {
      forall k | k in fields
        ensures MatchesField(lib, fields[k], v.fields, k) <==>
          if fields[k] == Str("absent") then k !in v.fields else k in v.fields && Matches(lib, fields[k], v.fields[k])
      {
      }
    }
  }

  // -----------------------------------------------------------------------------------
  // Operators, in the order in which they are looked for; null stands for Go's zero value

  lemma TypeNames(b: bool, n: real, s: string, items: seq<Value>, fields: map<string, Value>)
    ensures JsonType(Null) == "null" && JsonType(Bool(b)) == "boolean" && JsonType(Num(n)) == "number"
    ensures JsonType(Str(s)) == "string" && JsonType(Arr(items)) == "array" && JsonType(Obj(fields)) == "object"
  {
  }

  /** $exists asks for a value, or for none; $type, where it is a string, for its type. */
  lemma ExistsOperator(lib: Library, fields: map<string, Value>, v: Value)
    requires "$exists" in fields
    ensures Matches(lib, Obj(fields), v) <==>
      (if fields["$exists"] == Bool(true) then v != Null
       else (fields["$exists"] == Bool(false) || fields["$exists"] == Null) && v == Null) &&
      ("$type" in fields && fields["$type"].Str? ==> JsonType(v) == fields["$type"].s) &&
      ("$type" in fields ==> fields["$type"] != Null)
  {
  }

  lemma MatchOperator(lib: Library, fields: map<string, Value>, v: Value)
    requires "$exists" !in fields && "$match" in fields
    ensures Matches(lib, Obj(fields), v) <==>
      v.Str? && ((fields["$match"].Str? && lib.regexMatch(fields["$match"].s, v.s)) ||
                 (fields["$match"] == Null && lib.regexMatch("", v.s)))
  {
  }

  lemma SomeOf(lib: Library, list: Value, v: Value)
    ensures MatchesSome(lib, list, v)
      <==> list.Arr? && exists i :: 0 <= i < |list.items| && Matches(lib, list.items[i], v)
  {
  }

  /** $in and $or ask that something in the list match. */
  lemma InOperator(lib: Library, fields: map<string, Value>, v: Value)
    requires "$exists" !in fields && "$match" !in fields && "$in" in fields
    ensures var list := fields["$in"];
            Matches(lib, Obj(fields), v) <==>
            list.Arr? && exists i :: 0 <= i < |list.items| && Matches(lib, list.items[i], v)
  {
    SomeOf(lib, fields["$in"], v);
  }

  lemma OrOperator(lib: Library, fields: map<string, Value>, v: Value)
    requires "$exists" !in fields && "$match" !in fields && "$in" !in fields && "$size" !in fields && "$or" in fields
    ensures var list := fields["$or"];
            Matches(lib, Obj(fields), v) <==>
            list.Arr? && exists i :: 0 <= i < |list.items| && Matches(lib, list.items[i], v)
  {
    SomeOf(lib, fields["$or"], v);
  }

  /** A whole number that fits an int, or null for 0. */
  predicate Denotes(v: Value, n: int) {
    (v == Null && n == 0) || (v == Num(n as real) && -0x8000_0000_0000_0000 <= n <= 0x7fff_ffff_ffff_ffff)
  }

  lemma DenotesMeaning(v: Value)
    ensures AsInt(v).Some? ==> Denotes(v, AsInt(v).value)
    ensures forall n :: Denotes(v, n) ==> AsInt(v) == Some(n)
  {
    forall n | Denotes(v, n) ensures AsInt(v) == Some(n) {
      assert (n as real).Floor == n;
    }
  }

  /** $size asks for so many items, {"$gte": n} for n or more; nothing fits any other size. */
  lemma SizeOperator(lib: Library, fields: map<string, Value>, v: Value)
    requires "$exists" !in fields && "$match" !in fields && "$in" !in fields && "$size" in fields
    ensures var size := fields["$size"];
            Matches(lib, Obj(fields), v) <==>
            v.Arr? && (Denotes(size, |v.items|) ||
                       (size.Obj? && "$gte" in size.fields &&
                        exists n :: Denotes(size.fields["$gte"], n) && |v.items| >= n))
  {
    var size := fields["$size"];
    DenotesMeaning(size);
    if size.Obj? && "$gte" in size.fields {
      DenotesMeaning(size.fields["$gte"]);
    }
  }

  /** $empty accepts everything. */
  lemma EmptyOperator(lib: Library, fields: map<string, Value>, v: Value)
    requires "$exists" !in fields && "$match" !in fields && "$in" !in fields && "$size" !in fields && "$or" !in fields
    requires "$empty" in fields
    ensures Matches(lib, Obj(fields), v)
  {
  }

  /** A bound that is no number is left out; null stands for 0. */
  predicate Within(bounds: map<string, Value>, n: real) {
    ("min" in bounds && bounds["min"].Num? ==> bounds["min"].n <= n) &&
    ("min" in bounds && bounds["min"] == Null ==> 0.0 <= n) &&
    ("max" in bounds && bounds["max"].Num? ==> n <= bounds["max"].n) &&
    ("max" in bounds && bounds["max"] == Null ==> n <= 0.0)
  }

  lemma RangeOperator(lib: Library, fields: map<string, Value>, v: Value)
    requires "$exists" !in fields && "$match" !in fields && "$in" !in fields && "$size" !in fields && "$or" !in fields
    requires "$empty" !in fields && "range" in fields
    ensures Matches(lib, Obj(fields), v) <==>
      v.Num? && (fields["range"] == Null || (fields["range"].Obj? && Within(fields["range"].fields, v.n)))
  {
  }
}
