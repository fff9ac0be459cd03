/**
 Thread ids. The adapter shows each envelope (or each SDK) as a thread and numbers the threads
 in the order in which the trace first names them; server and emitter allocate alike
 (threadIDFor in cmd/exec-history-dap/serve.go and main.go).
 */
module DapThreads {
  import opened Sequences
  import opened Text
  import opened DapProtocol

  datatype ThreadBy = ByEnvelope | BySdk

  function ThreadKey(mode: ThreadBy, span: Span): string {
    match mode case ByEnvelope => span.envelopeID case BySdk => span.sdk
  }

  datatype Table = Table(ids: map<string, int>, next: int)

  const NO_THREADS := Table(map[], 1)

  /** threadIDFor: the id of a key, allocating one for a new key. */
  function IdFor(t: Table, key: string): int { if key in t.ids then t.ids[key] else t.next }

  function Admit(t: Table, key: string): Table {
    if key in t.ids then t else Table(t.ids[key := t.next], t.next + 1)
  }

  /** What is announced when the replay stops at a span: a thread not seen before, then the stop. */
  function Arrival(t: Table, mode: ThreadBy, span: Span): seq<Content> {
    var key := ThreadKey(mode, span);
    (if key in t.ids then [] else [ThreadStarted(IdFor(t, key))]) + [Stopped(StopAt(span, IdFor(t, key)))]
  }

  // -----------------------------------------------------------------------------------
  // The story of a trace, without a table: ids are ranks of first occurrence

  /** The distinct keys of some spans, by first occurrence. */
  function Cast(mode: ThreadBy, spans: seq<Span>): seq<string> {
    if spans == [] then []
    else
      var before := Cast(mode, spans[..|spans| - 1]);
      var key := ThreadKey(mode, spans[|spans| - 1]);
      if key in before then before else before + [key]
  }

  /** The rank of a key, counting from 1; a new key comes after all others. */
  function Rank(names: seq<string>, key: string): (r: int)
    ensures key in names ==> 1 <= r <= |names| && names[r - 1] == key
    ensures key !in names ==> r == |names| + 1
  {
    if names == [] then 1
    else if names[0] == key then 1
    else
      assert names == [names[0]] + names[1..];
      1 + Rank(names[1..], key)
  }

  /** What is told of a span, when its thread joins the given ones. */
  function Entrance(names: seq<string>, key: string, span: Span): seq<Content> {
    (if key in names then [] else [ThreadStarted(Rank(names, key))]) + [Stopped(StopAt(span, Rank(names, key)))]
  }

  /** What is told of the last of some spans. */
  function Scene(mode: ThreadBy, spans: seq<Span>): seq<Content>
    requires spans != []
  {
    var last := spans[|spans| - 1];
    Entrance(Cast(mode, spans[..|spans| - 1]), ThreadKey(mode, last), last)
  }

  function Story(mode: ThreadBy, spans: seq<Span>): seq<Content> {
    if spans == [] then [] else Story(mode, spans[..|spans| - 1]) + Scene(mode, spans)
  }

  lemma {:induction false} CastIsWhoActs(mode: ThreadBy, spans: seq<Span>, key: string)
    ensures key in Cast(mode, spans) <==> exists i :: 0 <= i < |spans| && ThreadKey(mode, spans[i]) == key
    decreases |spans|
  {
    if spans != [] {
      var before := spans[..|spans| - 1];
      CastIsWhoActs(mode, before, key);
      if exists i :: 0 <= i < |spans| && ThreadKey(mode, spans[i]) == key {
        var i :| 0 <= i < |spans| && ThreadKey(mode, spans[i]) == key;
        assert i < |before| ==> before[i] == spans[i];
      }
    }
  }

  /** A table that numbers exactly the given names, in order. */
  ghost predicate Numbers(t: Table, names: seq<string>) {
    t.next == |names| + 1 &&
    (forall key :: key in t.ids <==> key in names) &&
    (forall i :: 0 <= i < |names| ==> names[i] in t.ids && t.ids[names[i]] == i + 1)
  }

  lemma NumbersRank(t: Table, names: seq<string>, key: string)
    requires Numbers(t, names)
    ensures IdFor(t, key) == Rank(names, key)
  {
  }

  lemma AdmitNumbers(t: Table, names: seq<string>, key: string)
    requires Numbers(t, names)
    ensures Numbers(Admit(t, key), if key in names then names else names + [key])
  {
  }

  /** A narrative adds to the story of the spans seen that of the spans visited, and no more. */
  ghost predicate Told(mode: ThreadBy, after: Table, seen: seq<Span>, visited: seq<Span>, narrative: seq<Content>) {
    Numbers(after, Cast(mode, seen + visited)) && Story(mode, seen + visited) == Story(mode, seen) + narrative
  }

  lemma ToldNothing(mode: ThreadBy, t: Table, seen: seq<Span>)
    requires Numbers(t, Cast(mode, seen))
    ensures Told(mode, t, seen, [], [])
  {
    Unit(seen);
    Unit(Story(mode, seen));
  }

  /** One arrival is the scene the story tells of it. */
  lemma ArrivalIsScene(t: Table, mode: ThreadBy, seen: seq<Span>, span: Span)
    requires Numbers(t, Cast(mode, seen))
    ensures Told(mode, Admit(t, ThreadKey(mode, span)), seen, [span], Arrival(t, mode, span))
  {
    var key := ThreadKey(mode, span);
    assert (seen + [span])[..|seen|] == seen;
    AdmitNumbers(t, Cast(mode, seen), key);
    NumbersRank(t, Cast(mode, seen), key);
  }

  // -----------------------------------------------------------------------------------
  // Listing the threads

  /** Ids are injective and fill 1, ..., next - 1. */
  ghost predicate Filled(t: Table) {
    t.next >= 1 &&
    (forall key :: key in t.ids ==> 1 <= t.ids[key] < t.next) &&
    (forall a, b :: a in t.ids && b in t.ids && t.ids[a] == t.ids[b] ==> a == b) &&
    (forall id :: 1 <= id < t.next ==> HasName(t, id))
  }

  ghost predicate HasName(t: Table, id: int) { exists key :: key in t.ids && t.ids[key] == id }

  lemma AdmitKeepsFilled(t: Table, key: string)
    requires Filled(t)
    ensures Filled(Admit(t, key))
    ensures key in Admit(t, key).ids && Admit(t, key).ids[key] == IdFor(t, key)
    ensures forall k :: k in t.ids ==> k in Admit(t, key).ids && Admit(t, key).ids[k] == t.ids[k]
  {
    if key !in t.ids {
      var u := Admit(t, key);
      forall id | 1 <= id < u.next
        ensures HasName(u, id)
      {
        if id < t.next {
          assert HasName(t, id);
          var k :| k in t.ids && t.ids[k] == id;
          assert k in u.ids && u.ids[k] == id;
        } else {
          assert key in u.ids && u.ids[key] == id;
        }
      }
    }
  }

  ghost function NameOf(t: Table, id: int): (key: string)
    requires HasName(t, id)
    ensures key in t.ids && t.ids[key] == id
  {
    var key :| key in t.ids && t.ids[key] == id;
    key
  }

  /** The threads by ascending id. */
  ghost function Roster(t: Table): seq<Thread>
    requires Filled(t)
  {
    seq(t.next - 1, i requires 0 <= i < t.next - 1 => Thread(i + 1, NameOf(t, i + 1)))
  }

  predicate Distinct(s: seq<int>) { forall i, j :: 0 <= i < j < |s| ==> s[i] != s[j] }

  predicate Rising(s: seq<int>) { forall i, j :: 0 <= i < j < |s| ==> s[i] < s[j] }

  /** sort.Ints, on numbers that are pairwise distinct. */
  function SortInts(s: seq<int>): (r: seq<int>)
    requires Distinct(s)
    ensures Rising(r)
    ensures forall x :: x in r <==> x in s
  {
    if s == [] then []
    else
      assert s == [s[0]] + s[1..];
      Insert(s[0], SortInts(s[1..]))
  }

  function Insert(x: int, s: seq<int>): (r: seq<int>)
    requires Rising(s) && x !in s
    ensures Rising(r)
    ensures forall y :: y in r <==> y == x || y in s
  {
    if s == [] || x < s[0] then [x] + s
    else
      assert s == [s[0]] + s[1..];
      var rest := Insert(x, s[1..]);
      assert forall i :: 0 <= i < |rest| ==> rest[i] in rest;
      [s[0]] + rest
  }

  /** The only rising list of exactly the numbers 1, ..., n. */
  lemma {:induction false} RisingFills(s: seq<int>, n: nat)
    requires Rising(s) && forall x :: x in s <==> 1 <= x <= n
    ensures s == UpTo(n)
    decreases n
  {
    assert n > 0 ==> n in s;
    if s != [] {
      var before, last := s[..|s| - 1], s[|s| - 1];
      assert last in s;
      assert last == n;
      assert s == before + [n];
      forall x ensures x in before <==> 1 <= x <= n - 1 {
        assert x in s <==> x in before || x == n;
      }
      RisingFills(before, n - 1);
    }
  }

  // -----------------------------------------------------------------------------------
  // What holds of the story of any trace

  function Starting(): Content -> seq<int> {
    (c: Content) => if c.ThreadStarted? then [c.threadID] else []
  }

  function ThreadsStarted(cs: seq<Content>): seq<int> { FlatMap(Starting(), cs) }

  function UpTo(n: nat): (s: seq<int>)
    ensures |s| == n && forall i :: 0 <= i < n ==> s[i] == i + 1
  {
    seq(n, i => i + 1)
  }

  /** Every stop is on a thread that was started before it. */
  predicate StartedBeforeStop(cs: seq<Content>) {
    forall i :: 0 <= i < |cs| && cs[i].Stopped? ==> cs[i].stop.threadID in ThreadsStarted(cs[..i])
  }

  lemma StartedAppend(told: seq<Content>, scene: seq<Content>)
    requires StartedBeforeStop(told) && scene != [] && scene[|scene| - 1].Stopped?
    requires forall i :: 0 <= i < |scene| - 1 ==> !scene[i].Stopped?
    requires scene[|scene| - 1].stop.threadID in ThreadsStarted(told + scene[..|scene| - 1])
    ensures StartedBeforeStop(told + scene)
  {
    forall i | 0 <= i < |told + scene| && (told + scene)[i].Stopped?
      ensures (told + scene)[i].stop.threadID in ThreadsStarted((told + scene)[..i])
    {
      if i < |told| {
        assert (told + scene)[..i] == told[..i];
      } else {
        assert (told + scene)[..i] == told + scene[..|scene| - 1];
      }
    }
  }

  /** Threads are started once each, in the order 1, 2, 3, ..., and before their first stop. */
  lemma {:induction false} StoryStartsThreads(mode: ThreadBy, spans: seq<Span>)
    ensures ThreadsStarted(Story(mode, spans)) == UpTo(|Cast(mode, spans)|)
    ensures StartedBeforeStop(Story(mode, spans))
    decreases |spans|
  {
    if spans != [] {
      var before, last := spans[..|spans| - 1], spans[|spans| - 1];
      StoryStartsThreads(mode, before);
      EntranceStarts(Story(mode, before), Cast(mode, before), ThreadKey(mode, last), last);
    }
  }

  lemma EntranceOf(names: seq<string>, key: string, span: Span)
    ensures var id, scene := Rank(names, key), Entrance(names, key, span);
            if key in names then scene == [Stopped(StopAt(span, id))] && ThreadsStarted(scene) == []
            else scene == [ThreadStarted(id), Stopped(StopAt(span, id))] && ThreadsStarted(scene) == [id]
                 && ThreadsStarted([ThreadStarted(id)]) == [id] && scene[..1] == [ThreadStarted(id)]
  {
    var id := Rank(names, key);
    FlatMapOne(Starting(), Stopped(StopAt(span, id)));
    FlatMapOne(Starting(), ThreadStarted(id));
    FlatMapConcat(Starting(), [ThreadStarted(id)], [Stopped(StopAt(span, id))]);
  }

  lemma UpToNext(n: nat)
    ensures UpTo(n) + [n + 1] == UpTo(n + 1) && n + 1 in UpTo(n) + [n + 1]
    ensures forall id :: 1 <= id <= n ==> id in UpTo(n)
  {
    assert (UpTo(n) + [n + 1])[n] == n + 1;
    forall id | 1 <= id <= n ensures id in UpTo(n) {
      assert UpTo(n)[id - 1] == id;
    }
  }

  /** A thread is started exactly when the cast grows by it; else it was started before. */
  lemma EntranceStarts(told: seq<Content>, names: seq<string>, key: string, span: Span)
    requires StartedBeforeStop(told) && ThreadsStarted(told) == UpTo(|names|)
    ensures StartedBeforeStop(told + Entrance(names, key, span))
    ensures ThreadsStarted(told + Entrance(names, key, span)) == UpTo(if key in names then |names| else |names| + 1)
  {
    var scene := Entrance(names, key, span);
    EntranceOf(names, key, span);
    UpToNext(|names|);
    FlatMapConcat(Starting(), told, scene);
    FlatMapConcat(Starting(), told, scene[..|scene| - 1]);
    Unit(UpTo(|names|));
    StartedAppend(told, scene);
  }
}
