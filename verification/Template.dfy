/**
 Template references in test cases (runner/http/runner.go and runner/grpc/runner.go,
 resolveTemplates): {{steps.ID.response.body.PATH}}.
 */
module Template {
  import opened Text
  import opened Decimal
  import opened Json
  import opened PathResolve

  const REF_OPEN := "{{steps."
  const REF_MID := ".response.body."
  const REF_CLOSE := "}}"

  /** What resolveTemplates reads of an earlier step: its parsed body, if it has one. */
  type Parsed = Option<map<string, Value>>

  type Bodies = map<string, Parsed>

  /** The library renderings a substituted value goes through. */
  datatype Rendering = Rendering(sprint: Value -> string, marshal: Value -> string)

  /** One match of the reference pattern at the start of a text. */
  datatype Reference = Reference(id: string, path: string)

  function PrintReference(r: Reference): string {
    REF_OPEN + (r.id + (REF_MID + (r.path + REF_CLOSE)))
  }

  /** A nonempty run of characters up to the first stop, where the text mid must follow. */
  function ReadUntil(s: string, stop: char, mid: string): (r: Option<(string, string)>)
    requires mid != ""
    ensures r.Some? ==> s == r.value.0 + (mid + r.value.1)
  {
    var i := IndexChar(s, stop);
    if i <= 0 || !(mid <= s[i..]) then None
    else
      PrefixOf(mid, s[i..]);
      assert s == s[..i] + s[i..];
      Some((s[..i], s[i..][|mid|..]))
  }

  lemma PrefixOf<T>(p: seq<T>, s: seq<T>)
    requires p <= s
    ensures s == p + s[|p|..]
  {
  }

  lemma ReadUntilPrinted(a: string, stop: char, mid: string, rest: string)
    requires a != "" && stop !in a && mid != "" && mid[0] == stop
    ensures ReadUntil(a + (mid + rest), stop, mid) == Some((a, rest))
  {
    IndexCharAfter(a, mid + rest, stop);
    assert (a + (mid + rest))[|a|..] == mid + rest;
  }

  /**
   The pattern \{\{steps\.([^.]+)\.response\.body\.([^}]+)\}\} at the start of s. Neither
   group can be matched in two ways: the first runs to the first dot, the second to the first
   closing brace.
   */
  function MatchReference(s: string): (r: Option<Reference>)
    ensures r.Some? ==> PrintReference(r.value) <= s
  {
    if !(REF_OPEN <= s) then None
    else
      var id := ReadUntil(s[|REF_OPEN|..], '.', REF_MID);
      if id.None? then None
      else
        var path := ReadUntil(id.value.1, '}', REF_CLOSE);
        if path.None? then None
        else
          var r := Reference(id.value.0, path.value.0);
          PrefixOf(REF_OPEN, s);
          ReferenceThenText(r, path.value.1);
          Some(r)
  }

  lemma ReferenceThenText(r: Reference, s: string)
    ensures PrintReference(r) + s == REF_OPEN + (r.id + (REF_MID + (r.path + (REF_CLOSE + s))))
  {
    Assoc(REF_OPEN, r.id + (REF_MID + (r.path + REF_CLOSE)), s);
    Assoc(r.id, REF_MID + (r.path + REF_CLOSE), s);
    Assoc(REF_MID, r.path + REF_CLOSE, s);
    Assoc(r.path, REF_CLOSE, s);
  }

  /** The read a reference makes. */
  function Answer(r: Reference, bodies: Bodies): Parsed { if r.id in bodies then bodies[r.id] else None }

  /** The text a reference is replaced by, given what it read; an unresolvable one is left as it is. */
  function Replacement(out: Rendering, r: Reference, answer: Parsed): string {
    if answer.None? then PrintReference(r)
    else
      match Resolve(out.sprint, r.path, Obj(answer.value))
      case Err => PrintReference(r)
      case Ok(v) => if v.Null? then PrintReference(r) else RenderValue(out, v)
  }

  function Substitute(out: Rendering, r: Reference, bodies: Bodies): string {
    Replacement(out, r, Answer(r, bodies))
  }

  /** Strings as they are, whole numbers without a fraction, anything else through the library. */
  function RenderValue(out: Rendering, v: Value): string {
    match v
    case Str(s) => s
    case Num(n) => if n == n.Floor as real then PrintInt(n.Floor) else out.sprint(v)
    case _ => out.marshal(v)
  }

  /** ReplaceAllStringFunc: replace the leftmost match, go on behind it, never look back. */
  function ResolveTemplates(out: Rendering, text: string, bodies: Bodies): string
    decreases |text|
  {
    if text == "" then ""
    else
      match MatchReference(text)
      case Some(r) =>
        ReferenceNonempty(r);
        Substitute(out, r, bodies) + ResolveTemplates(out, text[|PrintReference(r)|..], bodies)
      case None => [text[0]] + ResolveTemplates(out, text[1..], bodies)
  }

  lemma ReferenceNonempty(r: Reference)
    ensures |PrintReference(r)| > |REF_OPEN|
    ensures PrintReference(r)[0] == '{'
  {
  }

  /** resolveMatcherTemplates: the raw matcher, resolved only when it may hold a reference. */
  function ResolveMatcherTemplates(out: Rendering, matcher: string, bodies: Bodies): string {
    if IndexOf(matcher, REF_OPEN) < 0 then matcher
    else
      var resolved := ResolveTemplates(out, matcher, bodies);
      if resolved != matcher then resolved else matcher
  }

  /** The shortcut of resolveMatcherTemplates changes nothing: both resolve the same text. */
  lemma MatcherTemplatesSame(out: Rendering, matcher: string, bodies: Bodies)
    ensures ResolveMatcherTemplates(out, matcher, bodies) == ResolveTemplates(out, matcher, bodies)
  {
    if IndexOf(matcher, REF_OPEN) < 0 {
      LiteralUntouched(out, matcher, "", bodies);
      Unit(matcher);
    }
  }

  // -----------------------------------------------------------------------------------
  // The frame of a text: the steps it names

  function NamedSteps(text: string): set<string>
    decreases |text|
  {
    if text == "" then {}
    else
      match MatchReference(text)
      case Some(r) =>
        ReferenceNonempty(r);
        {r.id} + NamedSteps(text[|PrintReference(r)|..])
      case None => NamedSteps(text[1..])
  }

  ghost predicate SameFor<T>(steps: set<string>, a: map<string, T>, b: map<string, T>) {
    forall id :: id in steps ==> (id in a <==> id in b) && (id in a ==> a[id] == b[id])
  }

  /** A text resolves the same against any results that agree on the steps it names. */
  lemma {:induction false} TemplateFrame(out: Rendering, text: string, a: Bodies, b: Bodies)
    requires SameFor(NamedSteps(text), a, b)
    ensures ResolveTemplates(out, text, a) == ResolveTemplates(out, text, b)
    decreases |text|
  {
    if text != "" {
      match MatchReference(text) {
        case Some(r) =>
          ReferenceNonempty(r);
          assert r.id in NamedSteps(text);
          TemplateFrame(out, text[|PrintReference(r)|..], a, b);
        case None => TemplateFrame(out, text[1..], a, b);
      }
    }
  }

  /** A text whose references all name steps without a parsed body is left as it is. */
  lemma {:induction false} UnresolvedTextUnchanged(out: Rendering, text: string, bodies: Bodies)
    requires forall id :: id in NamedSteps(text) ==> id !in bodies || bodies[id].None?
    ensures ResolveTemplates(out, text, bodies) == text
    decreases |text|
  {
    if text != "" {
      match MatchReference(text) {
        case Some(r) =>
          ReferenceNonempty(r);
          assert r.id in NamedSteps(text);
          PrefixOf(PrintReference(r), text);
          UnresolvedTextUnchanged(out, text[|PrintReference(r)|..], bodies);
        case None =>
          Recons(text);
          UnresolvedTextUnchanged(out, text[1..], bodies);
      }
    }
  }

  // -----------------------------------------------------------------------------------
  // One read at a time

  /** The references of a text, in order. */
  function References(text: string): seq<Reference>
    decreases |text|
  {
    if text == "" then []
    else
      match MatchReference(text)
      case Some(r) =>
        ReferenceNonempty(r);
        [r] + References(text[|PrintReference(r)|..])
      case None => References(text[1..])
  }

  /** The text resolved, given what each reference read, in order. */
  function ResolveWith(out: Rendering, text: string, answers: seq<Parsed>): string
    requires |answers| == |References(text)|
    decreases |text|
  {
    if text == "" then ""
    else
      match MatchReference(text)
      case Some(r) =>
        ReferenceNonempty(r);
        Replacement(out, r, answers[0]) + ResolveWith(out, text[|PrintReference(r)|..], answers[1..])
      case None => [text[0]] + ResolveWith(out, text[1..], answers)
  }

  /** Each reference read what the results hold for it. */
  ghost predicate AnsweredFrom(text: string, bodies: Bodies, answers: seq<Parsed>) {
    |answers| == |References(text)| &&
    forall i :: 0 <= i < |answers| ==> answers[i] == Answer(References(text)[i], bodies)
  }

  /**
   Reading one reference after the other is resolving the text, if the reads are those of one
   state of the results.
   */
  lemma {:induction false} ReadsResolve(out: Rendering, text: string, bodies: Bodies, answers: seq<Parsed>)
    requires AnsweredFrom(text, bodies, answers)
    ensures ResolveWith(out, text, answers) == ResolveTemplates(out, text, bodies)
    decreases |text|
  {
    if text != "" {
      match MatchReference(text) {
        case Some(r) =>
          ReferenceNonempty(r);
          var rest := text[|PrintReference(r)|..];
          Uncons(r, References(rest));
          ReadsResolve(out, rest, bodies, answers[1..]);
        case None => ReadsResolve(out, text[1..], bodies, answers);
      }
    }
  }

  /** A text names the steps its references read. */
  lemma {:induction false} ReferencesAreNamed(text: string)
    ensures forall r :: r in References(text) ==> r.id in NamedSteps(text)
    decreases |text|
  {
    if text != "" {
      match MatchReference(text) {
        case Some(r) =>
          ReferenceNonempty(r);
          ReferencesAreNamed(text[|PrintReference(r)|..]);
        case None => ReferencesAreNamed(text[1..]);
      }
    }
  }

  // -----------------------------------------------------------------------------------
  // What expansion means

  /** Literal text and references in turn. */
  datatype Document = End(literal: string) | Then(literal: string, ref: Reference, rest: Document)

  predicate WellFormedReference(r: Reference) {
    r.id != "" && '.' !in r.id && r.path != "" && '}' !in r.path
  }

  predicate WellFormedDocument(d: Document) {
    IndexOf(d.literal, REF_OPEN) < 0 &&
    match d
    case End(_) => true
    case Then(_, r, rest) => WellFormedReference(r) && WellFormedDocument(rest)
  }

  function PrintDocument(d: Document): string {
    match d
    case End(literal) => literal
    case Then(literal, r, rest) => literal + (PrintReference(r) + PrintDocument(rest))
  }

  /** Each reference replaced by its rendering, literals untouched, replacements not re-read. */
  function Expand(out: Rendering, d: Document, bodies: Bodies): string {
    match d
    case End(literal) => literal
    case Then(literal, r, rest) => literal + (Substitute(out, r, bodies) + Expand(out, rest, bodies))
  }

  /** A printed reference is recognised, whatever follows it. */
  lemma ReadReference(r: Reference, s: string)
    requires WellFormedReference(r)
    ensures MatchReference(PrintReference(r) + s) == Some(r)
    ensures (PrintReference(r) + s)[|PrintReference(r)|..] == s
  {
    ReferenceThenText(r, s);
    Cut(PrintReference(r), s);
    var t := r.id + (REF_MID + (r.path + (REF_CLOSE + s)));
    Cut(REF_OPEN, t);
    ReadUntilPrinted(r.id, '.', REF_MID, r.path + (REF_CLOSE + s));
    ReadUntilPrinted(r.path, '}', REF_CLOSE, s);
  }

  lemma Cut<T>(a: seq<T>, b: seq<T>)
    ensures a <= a + b && (a + b)[|a|..] == b
  {
  }

  /** No reference begins inside a literal: the opening cannot overlap its own beginning. */
  lemma NoReferenceInLiteral(literal: string, s: string)
    requires literal != "" && IndexOf(literal, REF_OPEN) < 0
    requires s == "" || REF_OPEN <= s
    ensures MatchReference(literal + s).None?
  {
    var t := literal + s;
    if |literal| >= |REF_OPEN| {
      assert t[..|REF_OPEN|] == literal[..|REF_OPEN|];
      assert !OccursAt(literal, REF_OPEN, 0);
    } else if s != "" {
      var k := if |literal| == 1 then 2 else |literal|;
      assert t[k] == s[k - |literal|] == REF_OPEN[k - |literal|] == '{';
      assert REF_OPEN[k] != '{';
    }
  }

  lemma {:induction false} LiteralUntouched(out: Rendering, literal: string, s: string, bodies: Bodies)
    requires IndexOf(literal, REF_OPEN) < 0
    requires s == "" || REF_OPEN <= s
    ensures ResolveTemplates(out, literal + s, bodies) == literal + ResolveTemplates(out, s, bodies)
    decreases |literal|
  {
    if literal == "" {
      Unit(s);
      Unit(ResolveTemplates(out, s, bodies));
    } else {
      NoReferenceInLiteral(literal, s);
      TailOfConcat(literal, s);
      TailHasNoOpening(literal);
      LiteralUntouched(out, literal[1..], s, bodies);
      Recons(literal);
      Assoc([literal[0]], literal[1..], ResolveTemplates(out, s, bodies));
    }
  }

  lemma TailHasNoOpening(literal: string)
    requires literal != "" && IndexOf(literal, REF_OPEN) < 0
    ensures IndexOf(literal[1..], REF_OPEN) < 0
  {
    var i := IndexOf(literal[1..], REF_OPEN);
    if i >= 0 {
      OccursTail(literal, REF_OPEN, i);
      assert false;
    }
  }

  lemma OccursTail(s: string, p: string, i: nat)
    requires s != "" && OccursAt(s[1..], p, i)
    ensures OccursAt(s, p, i + 1)
  {
    assert s[i + 1..i + 1 + |p|] == s[1..][i..i + |p|];
  }

  /** Expansion is exact on every well-formed document. */
  lemma {:induction false} ExpansionIsExact(out: Rendering, d: Document, bodies: Bodies)
    requires WellFormedDocument(d)
    ensures ResolveTemplates(out, PrintDocument(d), bodies) == Expand(out, d, bodies)
    decreases d
  {
    match d {
      case End(literal) =>
        LiteralUntouched(out, literal, "", bodies);
        Unit(literal);
      case Then(literal, r, rest) =>
        var s := PrintReference(r) + PrintDocument(rest);
        ReferenceThenText(r, PrintDocument(rest));
        LiteralUntouched(out, literal, s, bodies);
        ReadReference(r, PrintDocument(rest));
        ExpansionIsExact(out, rest, bodies);
    }
  }

  // -----------------------------------------------------------------------------------
  // A reference as it is written

  function ReferenceText(id: string, path: string): string {
    "{{steps." + (id + (".response.body." + (path + "}}")))
  }

  /** Literal text, a reference as it is written, and any text behind it. */
  lemma ReferenceIsReplaced(out: Rendering, before: string, id: string, path: string, after: string, bodies: Bodies)
    requires IndexOf(before, "{{steps.") < 0 && id != "" && '.' !in id && path != "" && '}' !in path
    ensures ResolveTemplates(out, before + (ReferenceText(id, path) + after), bodies)
      == before + (Substitute(out, Reference(id, path), bodies) + ResolveTemplates(out, after, bodies))
  {
    var r := Reference(id, path);
    ReferenceThenText(r, after);
    LiteralUntouched(out, before, ReferenceText(id, path) + after, bodies);
    ReadReference(r, after);
  }

  /** What takes its place when the step, its body or the path is missing or yields nil: the text as written. */
  lemma UnresolvableStays(out: Rendering, id: string, path: string, bodies: Bodies)
    requires id !in bodies || bodies[id].None? ||
      Resolve(out.sprint, path, Obj(bodies[id].value)) == Err ||
      Resolve(out.sprint, path, Obj(bodies[id].value)) == Ok(Null)
    ensures Substitute(out, Reference(id, path), bodies) == ReferenceText(id, path)
  {
  }

  /** And otherwise: a string as it is, a whole number in digits, another number by %v, the rest as JSON. */
  lemma ResolvedIsRendered(out: Rendering, id: string, path: string, bodies: Bodies, v: Value)
    requires id in bodies && bodies[id].Some? && Resolve(out.sprint, path, Obj(bodies[id].value)) == Ok(v) && v != Null
    ensures v.Str? ==> Substitute(out, Reference(id, path), bodies) == v.s
    ensures v.Num? && v.n == v.n.Floor as real ==>
      Substitute(out, Reference(id, path), bodies) == PrintInt(v.n.Floor)
    ensures v.Num? && v.n != v.n.Floor as real ==> Substitute(out, Reference(id, path), bodies) == out.sprint(v)
    ensures v.Bool? || v.Arr? || v.Obj? ==> Substitute(out, Reference(id, path), bodies) == out.marshal(v)
  {
  }

  /** The ids of the references of a document. */
  function ReferencedIn(d: Document): set<string> {
    match d case End(_) => {} case Then(_, r, rest) => {r.id} + ReferencedIn(rest)
  }

  lemma {:induction false} LiteralNamesNothing(literal: string, s: string)
    requires IndexOf(literal, REF_OPEN) < 0 && (s == "" || REF_OPEN <= s)
    ensures NamedSteps(literal + s) == NamedSteps(s)
    decreases |literal|
  {
    if literal == "" {
      Unit(s);
    } else {
      NoReferenceInLiteral(literal, s);
      TailOfConcat(literal, s);
      TailHasNoOpening(literal);
      LiteralNamesNothing(literal[1..], s);
    }
  }

  /** A document names exactly the steps its references are to. */
  lemma {:induction false} NamedAreReferenced(d: Document)
    requires WellFormedDocument(d)
    ensures NamedSteps(PrintDocument(d)) == ReferencedIn(d)
    decreases d
  {
    match d {
      case End(literal) =>
        LiteralNamesNothing(literal, "");
        Unit(literal);
      case Then(literal, r, rest) =>
        ReferenceThenText(r, PrintDocument(rest));
        LiteralNamesNothing(literal, PrintReference(r) + PrintDocument(rest));
        ReadReference(r, PrintDocument(rest));
        NamedAreReferenced(rest);
    }
  }
}
