/**
 Drilling down: a client that expands every reference it is given rebuilds the map behind the
 first one (scopes and variables in cmd/exec-history-dap/serve.go).
 */
module DapExplorer {
  import opened Json
  import opened DapProtocol
  import opened DapVariables
  import opened DapServer
  import opened DapSessions

  datatype Tree = Leaf(name: string, value: string) | Branch(name: string, value: string, children: seq<Tree>)

  // -----------------------------------------------------------------------------------
  // What a map looks like, without references

  function Render(marshal: Value -> string, fields: Fields): seq<Tree>
    decreases Obj(fields), 1, 0
  {
    RenderKeys(marshal, fields, Sorted(fields.Keys))
  }

  function RenderKeys(marshal: Value -> string, fields: Fields, keys: seq<string>): seq<Tree>
    decreases Obj(fields), 0, |keys|
  {
    if keys == [] then []
    else [RenderEntry(marshal, fields, keys[0])] + RenderKeys(marshal, fields, keys[1..])
  }

  function RenderEntry(marshal: Value -> string, fields: Fields, key: string): Tree
    decreases Obj(fields), 0, 0
  {
    if key in fields && fields[key].Obj? then Branch(key, ELLIPSIS, Render(marshal, fields[key].fields))
    else Leaf(key, ValueRepr(marshal, Lookup(fields, key)))
  }

  // -----------------------------------------------------------------------------------
  // The client

  datatype Explored = Explored(state: State, trees: seq<Tree>)

  function AskFor(ref: int): Request { Request(0, VariablesOf(ref)) }

  /** Variables whose references lead to maps nested in the given one. */
  ghost predicate Expandable(refs: Refs, fields: Fields, variables: seq<Variable>) {
    forall v :: v in variables && v.ref != 0 ==> Nested(refs, fields, v.ref)
  }

  ghost predicate Nested(refs: Refs, fields: Fields, ref: int) {
    ref in refs && exists key :: key in fields && fields[key] == Obj(refs[ref])
  }

  lemma ExpandableLater(before: Refs, after: Refs, fields: Fields, variables: seq<Variable>)
    requires Expandable(before, fields, variables) && Keeps(before, after)
    ensures Expandable(after, fields, variables)
  {
  }

  lemma ExpansionHandled(cfg: Config, s: State, ref: int)
    requires Valid(s)
    ensures Handle(cfg, s, AskFor(ref)) == OnVariables(cfg, s, 0, ref)
  {
  }

  /** What the server answers when a reference is expanded. */
  lemma Expansion(cfg: Config, s: State, ref: int)
    requires Valid(s) && ref in s.refs
    ensures var fields := s.refs[ref];
            var l := ListAll(cfg.marshal, fields, s.refs, s.nextVar);
            var h := Handle(cfg, s, AskFor(ref));
            h.contents == [Response(0, true, Variables(l.variables))] && h.state.refs == l.refs &&
            Valid(h.state) && Keeps(s.refs, h.state.refs) &&
            ShowsAll(cfg.marshal, fields, Sorted(fields.Keys), l, s.nextVar)
  {
    ExpansionHandled(cfg, s, ref);
    VariablesKeepValid(cfg, s, 0, ref);
    ListShows(cfg.marshal, s.refs[ref], Sorted(s.refs[ref].Keys), s.refs, s.nextVar);
  }

  lemma ShownAreExpandable(marshal: Value -> string, fields: Fields, keys: seq<string>, l: Listing, next: int)
    requires ShowsAll(marshal, fields, keys, l, next)
    ensures Expandable(l.refs, fields, l.variables)
  {
    forall v | v in l.variables && v.ref != 0
      ensures Nested(l.refs, fields, v.ref)
    {
      var i :| 0 <= i < |l.variables| && l.variables[i] == v;
      assert Shows(marshal, Lookup(fields, keys[i]), l.variables[i], l.refs, keys[i]);
      assert keys[i] in fields && fields[keys[i]] == Obj(l.refs[v.ref]);
    }
  }

  /** Expand a reference, and every reference in the answer. */
  ghost function Explore(cfg: Config, s: State, ref: int): (e: Explored)
    requires Valid(s) && ref in s.refs
    ensures Valid(e.state) && Keeps(s.refs, e.state.refs)
    decreases Obj(s.refs[ref]), 1, 0
  {
    Expansion(cfg, s, ref);
    var fields := s.refs[ref];
    ShownAreExpandable(cfg.marshal, fields, Sorted(fields.Keys), ListAll(cfg.marshal, fields, s.refs, s.nextVar),
      s.nextVar);
    var h := Handle(cfg, s, AskFor(ref));
    ExploreAll(cfg, h.state, fields, h.contents[0].body.variables)
  }

  ghost function ExploreAll(cfg: Config, s: State, fields: Fields, variables: seq<Variable>): (e: Explored)
    requires Valid(s) && Expandable(s.refs, fields, variables)
    ensures Valid(e.state) && Keeps(s.refs, e.state.refs)
    decreases Obj(fields), 0, |variables|
  {
    if variables == [] then Explored(s, [])
    else
      var v := variables[0];
      assert v in variables && forall w :: w in variables[1..] ==> w in variables;
      if v.ref == 0 then
        var rest := ExploreAll(cfg, s, fields, variables[1..]);
        rest.(trees := [Leaf(v.name, v.value)] + rest.trees)
      else
        assert Nested(s.refs, fields, v.ref);
        var below := Explore(cfg, s, v.ref);
        ExpandableLater(s.refs, below.state.refs, fields, variables[1..]);
        var rest := ExploreAll(cfg, below.state, fields, variables[1..]);
        rest.(trees := [Branch(v.name, v.value, below.trees)] + rest.trees)
  }

  // -----------------------------------------------------------------------------------
  // What the client gets

  /** Variables that show the entries of a map, for some keys. */
  ghost predicate ShownBy(marshal: Value -> string, fields: Fields, keys: seq<string>, variables: seq<Variable>,
      refs: Refs) {
    |variables| == |keys| &&
    forall i :: 0 <= i < |keys| ==> Shows(marshal, Lookup(fields, keys[i]), variables[i], refs, keys[i])
  }

  lemma ShownRest(marshal: Value -> string, fields: Fields, keys: seq<string>, variables: seq<Variable>,
      before: Refs, after: Refs)
    requires ShownBy(marshal, fields, keys, variables, before) && keys != [] && Keeps(before, after)
    ensures ShownBy(marshal, fields, keys[1..], variables[1..], after)
  {
    forall i | 0 <= i < |keys| - 1
      ensures Shows(marshal, Lookup(fields, keys[1..][i]), variables[1..][i], after, keys[1..][i])
    {
      assert Shows(marshal, Lookup(fields, keys[i + 1]), variables[i + 1], before, keys[i + 1]);
    }
  }

  /** Exploring a reference rebuilds the map it denotes, key by key, nested maps included. */
  lemma {:induction false} ExploreRebuilds(cfg: Config, s: State, ref: int)
    requires Valid(s) && ref in s.refs
    ensures Explore(cfg, s, ref).trees == Render(cfg.marshal, s.refs[ref])
    decreases Obj(s.refs[ref]), 1, 0
  {
    Expansion(cfg, s, ref);
    var fields := s.refs[ref];
    var l := ListAll(cfg.marshal, fields, s.refs, s.nextVar);
    ShownAreExpandable(cfg.marshal, fields, Sorted(fields.Keys), l, s.nextVar);
    ExploreAllRebuilds(cfg, Handle(cfg, s, AskFor(ref)).state, fields, Sorted(fields.Keys), l.variables);
  }

  lemma {:induction false} ExploreAllRebuilds(cfg: Config, s: State, fields: Fields, keys: seq<string>,
      variables: seq<Variable>)
    requires Valid(s) && Expandable(s.refs, fields, variables)
    requires ShownBy(cfg.marshal, fields, keys, variables, s.refs)
    ensures ExploreAll(cfg, s, fields, variables).trees == RenderKeys(cfg.marshal, fields, keys)
    decreases Obj(fields), 0, |variables|
  {
    if variables != [] {
      var v := variables[0];
      assert v in variables && forall w :: w in variables[1..] ==> w in variables;
      assert Shows(cfg.marshal, Lookup(fields, keys[0]), v, s.refs, keys[0]);
      if v.ref == 0 {
        ShownRest(cfg.marshal, fields, keys, variables, s.refs, s.refs);
        ExploreAllRebuilds(cfg, s, fields, keys[1..], variables[1..]);
      } else {
        assert Nested(s.refs, fields, v.ref);
        ExploreRebuilds(cfg, s, v.ref);
        var below := Explore(cfg, s, v.ref);
        ExpandableLater(s.refs, below.state.refs, fields, variables[1..]);
        ShownRest(cfg.marshal, fields, keys, variables, s.refs, below.state.refs);
        ExploreAllRebuilds(cfg, below.state, fields, keys[1..], variables[1..]);
      }
    }
  }

  // -----------------------------------------------------------------------------------
  // Every reference handed out, at any later time

  /** A message that hands a reference to the client. */
  ghost predicate Offers(c: Content, ref: int) {
    c.Response? && ref != 0 &&
    ((c.body.ScopeRefs? && ref in c.body.refs) ||
     (c.body.Variables? && exists v :: v in c.body.variables && v.ref == ref))
  }

  lemma OfferedByVariables(cfg: Config, s: State, requestSeq: int, asked: int, c: Content, ref: int)
    requires Valid(s) && c in OnVariables(cfg, s, requestSeq, asked).contents && Offers(c, ref)
    ensures ref in OnVariables(cfg, s, requestSeq, asked).state.refs
  {
    if asked in s.refs {
      var fields := s.refs[asked];
      ListShows(cfg.marshal, fields, Sorted(fields.Keys), s.refs, s.nextVar);
      ListGrows(cfg.marshal, fields, Sorted(fields.Keys), s.refs, s.nextVar);
    }
  }

  lemma AdvanceOffersNothing(cfg: Config, s: State, requestSeq: int, body: Body, c: Content, ref: int)
    requires Valid(s) && c in OnAdvance(cfg, s, requestSeq, body).contents && (body.NoBody? || body.Continuing?)
    ensures !Offers(c, ref)
  {
    AdvanceKeepsValid(cfg, s);
  }

  lemma OfferedIsKnown(cfg: Config, s: State, r: Request, c: Content, ref: int)
    requires Valid(s) && c in Handle(cfg, s, r).contents && Offers(c, ref)
    ensures ref in Handle(cfg, s, r).state.refs
  {
    if r.Request? {
      if Advances(r.command) {
        AdvanceOffersNothing(cfg, s, r.seqNo, Acknowledgement(r.command), c, ref);
      } else if r.command.VariablesOf? {
        OfferedByVariables(cfg, s, r.seqNo, r.command.ref, c, ref);
      }
    }
  }

  /**
   A reference handed out stays resolvable and keeps denoting the same map, whatever the
   client does next; so exploring it at any later time still rebuilds that map.
   */
  lemma ReferencesLast(cfg: Config, s: State, r: Request, c: Content, ref: int, later: seq<Request>)
    requires Valid(s) && c in Handle(cfg, s, r).contents && Offers(c, ref)
    ensures Valid(Handle(cfg, s, r).state)
    ensures var t := Handle(cfg, s, r).state;
            var u := Serve(cfg, t, later).state;
            Valid(u) && ref in t.refs && ref in u.refs && u.refs[ref] == t.refs[ref] &&
            Explore(cfg, u, ref).trees == Render(cfg.marshal, t.refs[ref])
  {
    HandleKeepsValid(cfg, s, r);
    OfferedIsKnown(cfg, s, r, c, ref);
    SessionKeepsValid(cfg, Handle(cfg, s, r).state, later);
    ExploreRebuilds(cfg, Serve(cfg, Handle(cfg, s, r).state, later).state, ref);
  }

  /** The scope of the current span leads to the whole span, at any later time. */
  lemma ScopeLeadsToSpan(cfg: Config, s: State, requestSeq: int, later: seq<Request>)
    requires Valid(s) && Current(s).Some?
    ensures Valid(Handle(cfg, s, Request(requestSeq, Scopes)).state)
    ensures var h := Handle(cfg, s, Request(requestSeq, Scopes));
            var u := Serve(cfg, h.state, later).state;
            h.contents == [Response(requestSeq, true, ScopeRefs([s.nextVar]))] &&
            Valid(u) && s.nextVar in u.refs &&
            Explore(cfg, u, s.nextVar).trees == Render(cfg.marshal, SpanAsMap(Current(s).value))
  {
    var r := Request(requestSeq, Scopes);
    var h := Handle(cfg, s, r);
    assert s.nextVar in h.contents[0].body.refs;
    ReferencesLast(cfg, s, r, h.contents[0], s.nextVar, later);
  }
}
