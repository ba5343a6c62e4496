/** The lineage graph: claims between nodes, and the ancestry query whose answer is
    exactly what can be reached. */
module Lineage {
  import opened Common
  import opened Sorting

  datatype Kind = Version | Run | Checkpoint | Model | OtherKind

  datatype Basis = Declared | Observed

  datatype Relation = Read | Produced | Promoted | OtherRelation

  datatype Node = Node(id: string, kind: Kind, digest: string, retrievable: bool)

  datatype Edge = Edge(from: string, to: string, relation: Relation, basis: Basis)

  type Nodes = map<string, Node>

  type Edges = map<string, seq<Edge>>

  function EdgesAt(m: Edges, at: string): seq<Edge> {
    if at in m then m[at] else []
  }

  /** The kinds a relation runs between. */
  function Allowed(r: Relation): Option<(Kind, Kind)> {
    match r
    case Read => Some((Run, Version))
    case Produced => Some((Run, Checkpoint))
    case Promoted => Some((Checkpoint, Model))
    case OtherRelation => None
  }

  predicate Meaningful(nodes: Nodes, e: Edge) {
    && e.from in nodes && e.to in nodes
    && Allowed(e.relation) == Some((nodes[e.from].kind, nodes[e.to].kind))
    && !(e.relation == Promoted && e.basis == Observed)
  }

  /** What Add and Link keep. */
  ghost predicate GraphInv(nodes: Nodes, out: Edges) {
    && (forall id :: id in nodes ==> nodes[id].id == id && id != "")
    && (forall f, e :: f in out && e in out[f] ==> e.from == f && Meaningful(nodes, e))
  }

  // ---- Ancestry as a relation ----

  /** The node whose past a claim is about, and the ancestor it names. */
  function Owner(e: Edge): string {
    if e.relation == Read then e.from else e.to
  }

  function Ancestor(e: Edge): string {
    if e.relation == Read then e.to else e.from
  }

  /** How often a claim was recorded. */
  ghost function Count(out: Edges, e: Edge): nat {
    multiset(EdgesAt(out, e.from))[e]
  }

  ghost predicate Claims(out: Edges, x: string, y: string) {
    exists e :: Count(out, e) > 0 && Owner(e) == x && Ancestor(e) == y
  }

  ghost predicate Path(out: Edges, p: seq<string>) {
    p != [] && forall i :: 0 <= i < |p| - 1 ==> Claims(out, p[i], p[i + 1])
  }

  /** y is x or one of its ancestors. */
  ghost predicate Reaches(out: Edges, x: string, y: string) {
    exists p :: Path(out, p) && p[0] == x && p[|p| - 1] == y
  }

  lemma ReachesItself(out: Edges, x: string)
    ensures Reaches(out, x, x)
  {
    assert Path(out, [x]);
  }

  lemma ReachesFurther(out: Edges, x: string, y: string, z: string)
    requires Reaches(out, x, y) && Claims(out, y, z)
    ensures Reaches(out, x, z)
  {
    var p :| Path(out, p) && p[0] == x && p[|p| - 1] == y;
    var q := p + [z];
    hide Claims;
    forall i | 0 <= i < |q| - 1 ensures Claims(out, q[i], q[i + 1]) {
      assert i < |p| - 1 ==> Claims(out, p[i], p[i + 1]);
    }
    assert Path(out, q);
  }

  /** A set closed under the claims holds everything reachable from its members. */
  lemma {:induction false} ClosedHoldsAll(out: Edges, seen: set<string>, p: seq<string>, n: nat)
    requires Path(out, p) && p[0] in seen && n < |p|
    requires forall x, y :: x in seen && Claims(out, x, y) ==> y in seen
    ensures p[n] in seen
  {
    hide Claims;
    if n > 0 {
      ClosedHoldsAll(out, seen, p, n - 1);
      assert Claims(out, p[n - 1], p[n - 1 + 1]);
    }
  }

  lemma ReachedIsSeen(out: Edges, seen: set<string>, x: string)
    requires x in seen && forall a, b :: a in seen && Claims(out, a, b) ==> b in seen
    ensures forall y :: Reaches(out, x, y) ==> y in seen
  {
    hide Claims;
    forall y | Reaches(out, x, y) ensures y in seen {
      var p :| Path(out, p) && p[0] == x && p[|p| - 1] == y;
      ClosedHoldsAll(out, seen, p, |p| - 1);
    }
  }

  // ---- The kinds make it acyclic ----

  function Rank(k: Kind): nat {
    match k
    case Model => 3
    case Checkpoint => 2
    case Run => 1
    case Version => 0
    case OtherKind => 0
  }

  function RankOf(nodes: Nodes, id: string): nat {
    if id in nodes then Rank(nodes[id].kind) else 0
  }

  lemma ClaimsDescend(nodes: Nodes, out: Edges, x: string, y: string)
    requires GraphInv(nodes, out) && Claims(out, x, y)
    ensures x in nodes && y in nodes && RankOf(nodes, y) < RankOf(nodes, x)
  {
    var e :| Count(out, e) > 0 && Owner(e) == x && Ancestor(e) == y;
    assert e in EdgesAt(out, e.from);
    assert Meaningful(nodes, e);
  }

  lemma {:induction false} PathDescends(nodes: Nodes, out: Edges, p: seq<string>, i: nat, j: nat)
    requires GraphInv(nodes, out) && Path(out, p) && i < j < |p|
    ensures RankOf(nodes, p[j]) + (j - i) <= RankOf(nodes, p[i])
  {
    hide GraphInv, Claims;
    assert Claims(out, p[j - 1], p[j - 1 + 1]);
    ClaimsDescend(nodes, out, p[j - 1], p[j]);
    if i < j - 1 {
      PathDescends(nodes, out, p, i, j - 1);
    }
  }

  /** No graph that Add and Link build has a cycle, and no ancestry is longer than
      four nodes. */
  lemma NoCycles(nodes: Nodes, out: Edges, p: seq<string>)
    requires GraphInv(nodes, out) && Path(out, p)
    ensures |p| <= 4 && NoDup(p)
  {
    hide GraphInv, Path;
    if |p| > 1 {
      PathDescends(nodes, out, p, 0, |p| - 1);
    }
    forall i, j | 0 <= i < j < |p| ensures p[i] != p[j] {
      PathDescends(nodes, out, p, i, j);
    }
  }

  // ---- Claims, counted ----

  ghost predicate Keyed(out: Edges) {
    forall f, e :: f in out && e in out[f] ==> e.from == f
  }

  /** es is the claims about one node's past, each as often as it was recorded. */
  ghost predicate Owned(es: multiset<Edge>, out: Edges, at: string) {
    forall e :: es[e] == if Owner(e) == at then Count(out, e) else 0
  }

  /** es is the claims about the past of any of these nodes. */
  ghost predicate OwnedByAll(es: multiset<Edge>, out: Edges, visited: set<string>) {
    forall e :: es[e] == if Owner(e) in visited then Count(out, e) else 0
  }

  lemma OneMoreOwner(es: multiset<Edge>, more: multiset<Edge>, out: Edges, visited: set<string>, at: string)
    requires OwnedByAll(es, out, visited) && Owned(more, out, at) && at !in visited
    ensures OwnedByAll(es + more, out, visited + {at})
  {
    hide Owner, Count;
  }

  /** in: for each node the claims that point at it. */
  ghost predicate Inward(inn: Edges, out: Edges, done: set<string>) {
    forall t, e :: multiset(EdgesAt(inn, t))[e] == if e.to == t && e.from in done then Count(out, e) else 0
  }

  /** The same with the claims of one more node, f, taken in only as far as part. */
  ghost predicate InwardPart(inn: Edges, out: Edges, done: set<string>, f: string, part: multiset<Edge>) {
    forall t, e :: multiset(EdgesAt(inn, t))[e] ==
      if e.to != t then 0 else if e.from in done then Count(out, e) else if e.from == f then part[e] else 0
  }

  function Noted(inn: Edges, e: Edge): Edges {
    inn[e.to := EdgesAt(inn, e.to) + [e]]
  }

  lemma InwardStarts(inn: Edges, out: Edges, done: set<string>, f: string)
    requires Inward(inn, out, done)
    ensures InwardPart(inn, out, done, f, multiset{})
  {
    hide Count;
  }

  lemma InwardEnds(inn: Edges, out: Edges, done: set<string>, f: string)
    requires f in out && InwardPart(inn, out, done, f, multiset(out[f]))
    ensures Inward(inn, out, done + {f})
  {
  }

  lemma InwardNotes(inn: Edges, out: Edges, done: set<string>, f: string, part: multiset<Edge>, x: Edge)
    requires InwardPart(inn, out, done, f, part) && f !in done && x.from == f
    ensures InwardPart(Noted(inn, x), out, done, f, part + multiset{x})
  {
    hide Count, EdgesAt, Noted;
    forall t, e ensures multiset(EdgesAt(Noted(inn, x), t))[e] ==
      if e.to != t then 0
      else if e.from in done then Count(out, e)
      else if e.from == f then (part + multiset{x})[e]
      else 0
    {
      NotedCounts(inn, x, t, e);
    }
  }

  lemma NotedCounts(inn: Edges, x: Edge, t: string, e: Edge)
    ensures multiset(EdgesAt(Noted(inn, x), t))[e] ==
      multiset(EdgesAt(inn, t))[e] + if t == x.to && e == x then 1 else 0
  {
    var es := EdgesAt(inn, t);
    assert EdgesAt(Noted(inn, x), t) == if t == x.to then es + [x] else es;
    assert multiset(es + [x]) == multiset(es) + multiset{x};
  }

  lemma NothingInward(out: Edges)
    ensures Inward(map[], out, {})
  {
    assert forall t: string :: multiset(EdgesAt(map[], t)) == multiset{};
  }

  method TurnRound(out: Edges) returns (inn: Edges)
    requires Keyed(out)
    ensures Inward(inn, out, out.Keys)
  {
    inn := map[];
    var left := out.Keys;
    NothingInward(out);
    assert out.Keys - left == {};
    hide Inward, InwardPart, Noted;
    while left != {}
      invariant left <= out.Keys && Inward(inn, out, out.Keys - left)
      decreases |left|
    {
      var f :| f in left;
      ghost var done := out.Keys - left;
      var es, i := out[f], 0;
      InwardStarts(inn, out, done, f);
      assert multiset(es[..0]) == multiset{};
      while i < |es|
        invariant 0 <= i <= |es| && InwardPart(inn, out, done, f, multiset(es[..i]))
      {
        assert es[..i + 1] == es[..i] + [es[i]];
        assert es[i] in out[f];
        InwardNotes(inn, out, done, f, multiset(es[..i]), es[i]);
        inn := Noted(inn, es[i]);
        i := i + 1;
      }
      assert es[..i] == es;
      InwardEnds(inn, out, done, f);
      assert done + {f} == out.Keys - (left - {f});
      left := left - {f};
    }
    assert out.Keys - left == out.Keys;
  }

  function Only(es: seq<Edge>, r: bool): seq<Edge> {
    if es == [] then []
    else
      var last := es[|es| - 1];
      Only(es[..|es| - 1], r) + if (last.relation == Read) == r then [last] else []
  }

  lemma {:induction false} OnlyCounts(es: seq<Edge>, r: bool)
    ensures forall e :: multiset(Only(es, r))[e] == if (e.relation == Read) == r then multiset(es)[e] else 0
  {
    if es != [] {
      var front, last := es[..|es| - 1], es[|es| - 1];
      OnlyCounts(front, r);
      assert es == front + [last];
      assert multiset(es) == multiset(front) + multiset{last};
      assert multiset(Only(front, r) + [last]) == multiset(Only(front, r)) + multiset{last};
    }
  }

  /** The claims found at a node: its reads, taken forwards, and of the other relations
      those that point at it. */
  function AncestorEdges(out: Edges, inn: Edges, at: string): seq<Edge> {
    Only(EdgesAt(out, at), true) + Only(EdgesAt(inn, at), false)
  }

  lemma AncestorEdgesAreOwned(out: Edges, inn: Edges, at: string)
    requires Keyed(out) && Inward(inn, out, out.Keys)
    ensures Owned(multiset(AncestorEdges(out, inn, at)), out, at)
  {
    hide Only, EdgesAt, Count, Keyed, Inward;
    var ahead, back := Only(EdgesAt(out, at), true), Only(EdgesAt(inn, at), false);
    assert multiset(ahead + back) == multiset(ahead) + multiset(back);
    forall e ensures multiset(AncestorEdges(out, inn, at))[e] == if Owner(e) == at then Count(out, e) else 0 {
      AheadCounts(out, at, e);
      BackCounts(out, inn, at, e);
    }
  }

  lemma AheadCounts(out: Edges, at: string, e: Edge)
    requires Keyed(out)
    ensures multiset(Only(EdgesAt(out, at), true))[e] == if e.relation == Read && e.from == at then Count(out, e) else 0
  {
    var es := EdgesAt(out, at);
    OnlyCounts(es, true);
    hide Only;
    assert multiset(es)[e] > 0 ==> e in es && e.from == at;
  }

  lemma BackCounts(out: Edges, inn: Edges, at: string, e: Edge)
    requires Inward(inn, out, out.Keys)
    ensures multiset(Only(EdgesAt(inn, at), false))[e] == if e.relation != Read && e.to == at then Count(out, e) else 0
  {
    OnlyCounts(EdgesAt(inn, at), false);
    hide Only;
    assert multiset(EdgesAt(inn, at))[e] == if e.to == at && e.from in out.Keys then Count(out, e) else 0;
    assert e.from !in out ==> Count(out, e) == 0;
  }

  method Filter(es: seq<Edge>, wanted: bool, before: seq<Edge>) returns (r: seq<Edge>)
    ensures r == before + Only(es, wanted)
  {
    r := before;
    var i := 0;
    while i < |es|
      invariant 0 <= i <= |es| && r == before + Only(es[..i], wanted)
    {
      assert es[..i + 1][..i] == es[..i];
      if (es[i].relation == Read) == wanted {
        r := r + [es[i]];
      }
      i := i + 1;
    }
    assert es[..i] == es;
  }

  method FindAncestorEdges(out: Edges, inn: Edges, at: string) returns (r: seq<Edge>)
    ensures r == AncestorEdges(out, inn, at)
  {
    r := Filter(EdgesAt(out, at), true, []);
    r := Filter(EdgesAt(inn, at), false, r);
  }

  // ---- The walk ----

  datatype Answer = Answer(nodes: seq<Node>, edges: seq<Edge>, observed: nat, asserted: nat, unretrievable: seq<string>)

  function NodeAt(nodes: Nodes, id: string): Node {
    if id in nodes then nodes[id] else Node("", Version, "", false)
  }

  function NodesAt(nodes: Nodes, ids: seq<string>): seq<Node> {
    if ids == [] then [] else NodesAt(nodes, ids[..|ids| - 1]) + [NodeAt(nodes, ids[|ids| - 1])]
  }

  predicate Lost(n: Node) {
    n.kind == Version && !n.retrievable
  }

  function LostAt(nodes: Nodes, ids: seq<string>): seq<string> {
    if ids == [] then []
    else
      var n := NodeAt(nodes, ids[|ids| - 1]);
      LostAt(nodes, ids[..|ids| - 1]) + if Lost(n) then [n.id] else []
  }

  function ObservedIn(es: seq<Edge>): nat {
    if es == [] then 0 else ObservedIn(es[..|es| - 1]) + if es[|es| - 1].basis == Observed then 1 else 0
  }

  lemma {:induction false} ObservedAppend(a: seq<Edge>, b: seq<Edge>)
    ensures ObservedIn(a + b) == ObservedIn(a) + ObservedIn(b) && ObservedIn(b) <= |b|
  {
    if b == [] {
      assert a + b == a;
    } else {
      assert (a + b)[..|a + b| - 1] == a + b[..|b| - 1];
      ObservedAppend(a, b[..|b| - 1]);
    }
  }

  ghost function AncestorsIn(es: seq<Edge>): set<string> {
    set e | e in es :: Ancestor(e)
  }

  /** The stack and the seen set with more pushed: each new name once. */
  ghost predicate Pushed(
    stack: seq<string>, seen: set<string>, es: seq<Edge>, stack': seq<string>, seen': set<string>) {
    && seen' == seen + AncestorsIn(es) && stack <= stack'
    && NoDup(stack'[|stack|..]) && Elems(stack'[|stack|..]) == seen' - seen
  }

  lemma PushOne(stack: seq<string>, seen: set<string>, es: seq<Edge>, stack': seq<string>, seen': set<string>, e: Edge)
    requires Pushed(stack, seen, es, stack', seen')
    ensures var y := Ancestor(e);
      if y in seen' then Pushed(stack, seen, es + [e], stack', seen')
      else Pushed(stack, seen, es + [e], stack' + [y], seen' + {y})
  {
    var y := Ancestor(e);
    assert AncestorsIn(es + [e]) == AncestorsIn(es) + {y};
    hide Ancestor, AncestorsIn;
    if y in seen' {
      assert seen' + {y} == seen';
    } else {
      var newer := stack'[|stack|..];
      assert (stack' + [y])[|stack|..] == newer + [y];
      assert y !in newer by {
        assert y in newer ==> y in Elems(newer);
      }
      assert Elems(newer + [y]) == Elems(newer) + {y};
    }
  }

  /** Everything one visit to a node does with the claims about its past. */
  method Follow(es: seq<Edge>, stack: seq<string>, seen: set<string>, a: Answer)
    returns (stack': seq<string>, seen': set<string>, a': Answer)
    ensures Pushed(stack, seen, es, stack', seen')
    ensures a' == a.(edges := a.edges + es, observed := a.observed + ObservedIn(es), asserted := a'.asserted)
    ensures a'.observed + a'.asserted == a.observed + a.asserted + |es|
  {
    stack', seen', a' := stack, seen, a;
    var i := 0;
    assert es[..0] == [];
    hide Pushed, Ancestor, AncestorsIn;
    NothingPushed(stack, seen);
    while i < |es|
      invariant 0 <= i <= |es| && Pushed(stack, seen, es[..i], stack', seen')
      invariant a' ==
        a.(edges := a.edges + es[..i], observed := a.observed + ObservedIn(es[..i]), asserted := a'.asserted)
      invariant a'.observed + a'.asserted == a.observed + a.asserted + i
    {
      var e := es[i];
      assert es[..i + 1] == es[..i] + [e] && es[..i + 1][..i] == es[..i];
      a' := a'.(edges := a'.edges + [e]);
      if e.basis == Observed {
        a' := a'.(observed := a'.observed + 1);
      } else {
        a' := a'.(asserted := a'.asserted + 1);
      }
      PushOne(stack, seen, es[..i], stack', seen', e);
      var next := Ancestor(e);
      if next !in seen' {
        seen', stack' := seen' + {next}, stack' + [next];
      }
      i := i + 1;
    }
    assert es[..i] == es;
  }

  lemma NothingPushed(stack: seq<string>, seen: set<string>)
    ensures Pushed(stack, seen, [], stack, seen)
  {
    assert stack[|stack|..] == [] && seen + {} == seen;
  }

  /** Nodes visited and nodes still on the stack are those seen, each once; all are
      reachable; and the answer so far is what the visited ones say. */
  ghost predicate Walk(
    nodes: Nodes, out: Edges, id: string, visited: seq<string>, stack: seq<string>, seen: set<string>, a: Answer) {
    && NoDup(visited + stack) && Elems(visited + stack) == seen && id in seen
    && (forall x :: x in seen ==> x in nodes && Reaches(out, id, x))
    && (forall x, y :: x in visited && Claims(out, x, y) ==> y in seen)
    && AnswerSoFar(nodes, out, visited, a)
  }

  ghost predicate AnswerSoFar(nodes: Nodes, out: Edges, visited: seq<string>, a: Answer) {
    && a.nodes == NodesAt(nodes, visited) && a.unretrievable == LostAt(nodes, visited)
    && OwnedByAll(multiset(a.edges), out, Elems(visited))
    && a.observed == ObservedIn(a.edges) && a.observed + a.asserted == |a.edges|
  }

  lemma WalkStarts(nodes: Nodes, out: Edges, id: string)
    requires id in nodes
    ensures Walk(nodes, out, id, [], [id], {id}, Answer([], [], 0, 0, []))
  {
    ReachesItself(out, id);
    hide Reaches, Claims;
    assert [] + [id] == [id];
  }

  lemma ClaimsAreAncestors(out: Edges, es: seq<Edge>, x: string)
    requires Owned(multiset(es), out, x)
    ensures forall y :: Claims(out, x, y) <==> y in AncestorsIn(es)
  {
    forall y | Claims(out, x, y) ensures y in AncestorsIn(es) {
      var e :| Count(out, e) > 0 && Owner(e) == x && Ancestor(e) == y;
      assert multiset(es)[e] > 0;
      assert e in es;
    }
    forall y | y in AncestorsIn(es) ensures Claims(out, x, y) {
      var e :| e in es && Ancestor(e) == y;
      assert e in multiset(es) && multiset(es)[e] > 0;
    }
  }

  /** Moving the top of the stack to the visited, and pushing what it leads to. */
  lemma StackMoves(
    visited: seq<string>, stack: seq<string>, seen: set<string>, es: seq<Edge>, stack': seq<string>, seen': set<string>)
    requires stack != [] && NoDup(visited + stack) && Elems(visited + stack) == seen
    requires Pushed(stack[..|stack| - 1], seen, es, stack', seen')
    ensures var v := visited + [stack[|stack| - 1]];
      NoDup(v + stack') && Elems(v + stack') == seen' && stack[|stack| - 1] !in visited
  {
    hide AncestorsIn;
    var low, top := stack[..|stack| - 1], stack[|stack| - 1];
    var newer := stack'[|low|..];
    var v := visited + [top];
    assert stack' == low + newer && stack == low + [top];
    assert forall x :: x in newer ==> x in Elems(newer);
    assert forall x :: x in visited + stack ==> x in seen;
    Swapped(visited, low, top);
    NoDupJoin(v + low, newer);
    assert v + stack' == (v + low) + newer;
    assert Elems(v + low + newer) == Elems(v + low) + Elems(newer);
    assert top == (visited + stack)[|visited + stack| - 1];
  }

  lemma Swapped(visited: seq<string>, low: seq<string>, top: string)
    requires NoDup(visited + (low + [top]))
    ensures NoDup(visited + [top] + low) && Elems(visited + [top] + low) == Elems(visited + (low + [top]))
    ensures top !in visited
  {
    var a, b := visited + (low + [top]), visited + [top] + low;
    assert a[|a| - 1] == top;
    forall i, j | 0 <= i < j < |b| ensures b[i] != b[j] {
      var i' := if i < |visited| then i else if i == |visited| then |a| - 1 else i - 1;
      var j' := if j < |visited| then j else if j == |visited| then |a| - 1 else j - 1;
      assert b[i] == a[i'] && b[j] == a[j'];
    }
    forall i | 0 <= i < |visited| ensures visited[i] != top {
      assert a[i] == visited[i];
    }
  }

  lemma NoDupJoin(a: seq<string>, b: seq<string>)
    requires NoDup(a) && NoDup(b) && forall x :: x in a ==> x !in b
    ensures NoDup(a + b)
  {
    forall i, j | 0 <= i < j < |a + b| ensures (a + b)[i] != (a + b)[j] {
      assert i < |a| <= j ==> a[i] in a && b[j - |a|] in b;
    }
  }

  lemma AnswerGrows(nodes: Nodes, out: Edges, inn: Edges, visited: seq<string>, at: string, a: Answer, b: Answer)
    requires Keyed(out) && Inward(inn, out, out.Keys) && AnswerSoFar(nodes, out, visited, a) && at !in visited
    requires var es := AncestorEdges(out, inn, at);
      && b.nodes == a.nodes + [NodeAt(nodes, at)]
      && b.unretrievable == a.unretrievable + (if Lost(NodeAt(nodes, at)) then [NodeAt(nodes, at).id] else [])
      && b.edges == a.edges + es && b.observed == a.observed + ObservedIn(es)
      && b.observed + b.asserted == a.observed + a.asserted + |es|
    ensures AnswerSoFar(nodes, out, visited + [at], b)
  {
    hide OwnedByAll, Owned, Inward, AncestorEdges, Keyed, ObservedIn, NodeAt, Lost;
    var es := AncestorEdges(out, inn, at);
    AncestorEdgesAreOwned(out, inn, at);
    ObservedAppend(a.edges, es);
    NodesGrow(nodes, visited, at);
    hide NodesAt, LostAt;
    assert multiset(a.edges + es) == multiset(a.edges) + multiset(es);
    assert Elems(visited + [at]) == Elems(visited) + {at};
    OneMoreOwner(multiset(a.edges), multiset(es), out, Elems(visited), at);
  }

  lemma NodesGrow(nodes: Nodes, visited: seq<string>, at: string)
    ensures NodesAt(nodes, visited + [at]) == NodesAt(nodes, visited) + [NodeAt(nodes, at)]
    ensures LostAt(nodes, visited + [at]) ==
      LostAt(nodes, visited) + if Lost(NodeAt(nodes, at)) then [NodeAt(nodes, at).id] else []
  {
    assert (visited + [at])[..|visited|] == visited;
  }

  lemma WalkSteps(
    nodes: Nodes, out: Edges, inn: Edges, id: string, visited: seq<string>, stack: seq<string>, seen: set<string>,
    a: Answer,
    stack': seq<string>, seen': set<string>, b: Answer)
    requires GraphInv(nodes, out) && Keyed(out) && Inward(inn, out, out.Keys)
    requires Walk(nodes, out, id, visited, stack, seen, a) && stack != []
    requires Pushed(stack[..|stack| - 1], seen, AncestorEdges(out, inn, stack[|stack| - 1]), stack', seen')
    requires AnswerSoFar(nodes, out, visited + [stack[|stack| - 1]], b)
    ensures Walk(nodes, out, id, visited + [stack[|stack| - 1]], stack', seen', b)
  {
    hide AncestorEdges, Inward, Keyed, AnswerSoFar, Claims, Reaches, Owned, GraphInv, AncestorsIn;
    var at := stack[|stack| - 1];
    var es := AncestorEdges(out, inn, at);
    AncestorEdgesAreOwned(out, inn, at);
    ClaimsAreAncestors(out, es, at);
    hide NoDup;
    StackMoves(visited, stack, seen, es, stack', seen');
    assert at == (visited + stack)[|visited + stack| - 1];
    forall x | x in seen' ensures x in nodes && Reaches(out, id, x) {
      if x !in seen {
        assert Claims(out, at, x);
        ReachesFurther(out, id, at, x);
        ClaimsDescend(nodes, out, at, x);
      }
    }
  }

  /** At the end everything reachable has been visited. */
  lemma WalkEnds(nodes: Nodes, out: Edges, id: string, visited: seq<string>, seen: set<string>, a: Answer)
    requires Walk(nodes, out, id, visited, [], seen, a)
    ensures NoDup(visited) && (forall x :: x in visited <==> Reaches(out, id, x)) && AnswerSoFar(nodes, out, visited, a)
    ensures forall x :: x in visited ==> x in nodes
  {
    hide Claims, Reaches, AnswerSoFar;
    assert visited + [] == visited;
    assert forall x :: x in visited <==> x in seen;
    ReachedIsSeen(out, seen, id);
  }

  // ---- Order ----

  predicate NodeLess(a: Node, b: Node) {
    StrLess(a.id, b.id)
  }

  predicate EdgeLess(a: Edge, b: Edge) {
    if a.from != b.from then StrLess(a.from, b.from) else StrLess(a.to, b.to)
  }

  lemma StringsOrder(a: string, b: string, c: string)
    ensures !(StrLess(a, b) && StrLess(b, a)) && (StrLess(a, b) && !StrLess(c, b) ==> StrLess(a, c))
  {
    StrLessTrichotomy(a, b);
    StrLessTrichotomy(b, c);
    if StrLess(a, b) && StrLess(b, c) {
      StrLessTransitive(a, b, c);
    }
  }

  lemma NodesOrder()
    ensures Ordering(NodeLess) && Ordering(StrLess)
  {
    hide StrLess;
    forall a: string, b: string, c: string
      ensures (StrLess(a, b) ==> !StrLess(b, a)) && (StrLess(a, b) && !StrLess(c, b) ==> StrLess(a, c)) {
      StringsOrder(a, b, c);
    }
  }

  lemma EdgesOrder()
    ensures Ordering(EdgeLess)
  {
    hide StrLess;
    forall a: Edge, b: Edge, c: Edge
      ensures (EdgeLess(a, b) ==> !EdgeLess(b, a)) && (EdgeLess(a, b) && !EdgeLess(c, b) ==> EdgeLess(a, c)) {
      StringsOrder(a.from, b.from, c.from);
      StringsOrder(a.to, b.to, c.to);
      StrLessTrichotomy(b.from, c.from);
    }
  }

  // ---- The answer ----

  /** Each reachable node once, each claim about their pasts as often as it was
      recorded, and the versions among them whose bytes are gone. */
  ghost predicate Holds(
    nodes: Nodes, out: Edges, id: string, ns: multiset<Node>, es: multiset<Edge>, lost: multiset<string>) {
    && (forall n :: ns[n] == if n.id in nodes && nodes[n.id] == n && Reaches(out, id, n.id) then 1 else 0)
    && (forall e :: es[e] == if Reaches(out, id, Owner(e)) then Count(out, e) else 0)
    && (forall x :: lost[x] == if x in nodes && Reaches(out, id, x) && Lost(nodes[x]) then 1 else 0)
  }

  /** Exactly that, in order, and every claim counted by how it is known. */
  ghost predicate Exact(nodes: Nodes, out: Edges, id: string, a: Answer) {
    && Holds(nodes, out, id, multiset(a.nodes), multiset(a.edges), multiset(a.unretrievable))
    && a.observed == ObservedIn(a.edges) && a.observed + a.asserted == |a.edges|
    && SortedBy(a.nodes, NodeLess) && SortedBy(a.edges, EdgeLess) && SortedBy(a.unretrievable, StrLess)
  }

  ghost predicate NodesKeyed(nodes: Nodes) {
    forall id :: id in nodes ==> nodes[id].id == id
  }

  lemma {:induction false} NodesCounted(nodes: Nodes, v: seq<string>)
    requires NodesKeyed(nodes) && NoDup(v) && forall x :: x in v ==> x in nodes
    ensures forall n :: multiset(NodesAt(nodes, v))[n] == if n.id in v && nodes[n.id] == n then 1 else 0
  {
    if v != [] {
      var front, last := v[..|v| - 1], v[|v| - 1];
      assert v == front + [last] && last in v;
      NodesCounted(nodes, front);
      assert multiset(NodesAt(nodes, v)) == multiset(NodesAt(nodes, front)) + multiset{nodes[last]};
    }
  }

  lemma {:induction false} LostCounted(nodes: Nodes, v: seq<string>)
    requires NodesKeyed(nodes) && NoDup(v) && forall x :: x in v ==> x in nodes
    ensures forall x :: multiset(LostAt(nodes, v))[x] == if x in v && Lost(nodes[x]) then 1 else 0
  {
    hide Lost;
    if v != [] {
      var front, last := v[..|v| - 1], v[|v| - 1];
      assert v == front + [last] && last in v;
      LostCounted(nodes, front);
      var more := LostAt(nodes, front);
      assert LostAt(nodes, v) == more + if Lost(nodes[last]) then [last] else [];
      assert multiset(more + [last]) == multiset(more) + multiset{last};
    }
  }

  lemma {:induction false} InsertKeepsObserved(x: Edge, s: seq<Edge>)
    ensures ObservedIn(InsertBy(x, s, EdgeLess)) == ObservedIn([x]) + ObservedIn(s)
  {
    hide EdgeLess, ObservedIn;
    if s == [] || EdgeLess(x, s[0]) {
      ObservedAppend([x], s);
    } else {
      InsertKeepsObserved(x, s[1..]);
      ObservedAppend([s[0]], s[1..]);
      ObservedAppend([s[0]], InsertBy(x, s[1..], EdgeLess));
      assert s == [s[0]] + s[1..];
    }
  }

  lemma {:induction false} SortKeepsObserved(s: seq<Edge>)
    ensures ObservedIn(SortBy(s, EdgeLess)) == ObservedIn(s) && |SortBy(s, EdgeLess)| == |s|
  {
    SortKeepsLength(s);
    hide EdgeLess, ObservedIn, InsertBy;
    if s != [] {
      SortKeepsObserved(s[1..]);
      InsertKeepsObserved(s[0], SortBy(s[1..], EdgeLess));
      ObservedAppend([s[0]], s[1..]);
      assert s == [s[0]] + s[1..];
    }
  }

  lemma SortKeepsLength(s: seq<Edge>)
    ensures |SortBy(s, EdgeLess)| == |s|
  {
    hide EdgeLess, SortBy, Ordering, SortedBy;
    EdgesOrder();
    SortSorts(s, EdgeLess);
    assert |multiset(SortBy(s, EdgeLess))| == |multiset(s)|;
  }

  function InOrder(a: Answer): Answer {
    a.(nodes := SortBy(a.nodes, NodeLess), edges := SortBy(a.edges, EdgeLess),
      unretrievable := SortBy(a.unretrievable, StrLess))
  }

  lemma WalkedIsExact(nodes: Nodes, out: Edges, id: string, visited: seq<string>, a: Answer)
    requires NodesKeyed(nodes) && NoDup(visited) && (forall x :: x in visited <==> Reaches(out, id, x))
    requires AnswerSoFar(nodes, out, visited, a) && forall x :: x in visited ==> x in nodes
    ensures Exact(nodes, out, id, InOrder(a))
  {
    VisitedHold(nodes, out, id, visited, a);
    hide Holds, NodeLess, EdgeLess, StrLess, SortBy, SortedBy, Ordering, ObservedIn, OwnedByAll, NodesAt, LostAt;
    NodesOrder();
    EdgesOrder();
    SortSorts(a.nodes, NodeLess);
    SortSorts(a.edges, EdgeLess);
    SortSorts(a.unretrievable, StrLess);
    SortKeepsObserved(a.edges);
  }

  lemma VisitedHold(nodes: Nodes, out: Edges, id: string, visited: seq<string>, a: Answer)
    requires NodesKeyed(nodes) && NoDup(visited) && (forall x :: x in visited <==> Reaches(out, id, x))
    requires AnswerSoFar(nodes, out, visited, a) && forall x :: x in visited ==> x in nodes
    ensures Holds(nodes, out, id, multiset(a.nodes), multiset(a.edges), multiset(a.unretrievable))
  {
    hide Reaches, Count, Owner, Lost, NodesAt, LostAt, ObservedIn;
    NodesCounted(nodes, visited);
    LostCounted(nodes, visited);
    hide NoDup, NodesKeyed;
  }

  class Graph {
    var nodes: Nodes
    var out: Edges

    ghost predicate Valid()
      reads this
    {
      GraphInv(nodes, out)
    }

    constructor ()
      ensures Valid() && nodes == map[] && out == map[]
    {
      nodes, out := map[], map[];
    }

    method Add(n: Node) returns (ok: bool)
      requires Valid()
      modifies this
      ensures Valid() && out == old(out) && (ok <==> n.id != "" && n.id !in old(nodes))
      ensures nodes == if ok then old(nodes)[n.id := n] else old(nodes)
    {
      if n.id == "" || n.id in nodes {
        return false;
      }
      nodes := nodes[n.id := n];
      ok := true;
    }

    method Link(e: Edge) returns (ok: bool)
      requires Valid()
      modifies this
      ensures Valid() && nodes == old(nodes) && (ok <==> Meaningful(nodes, e))
      ensures out == if ok then old(out)[e.from := EdgesAt(old(out), e.from) + [e]] else old(out)
    {
      if e.from !in nodes || e.to !in nodes {
        return false;
      }
      var kinds := Allowed(e.relation);
      if kinds.None? || nodes[e.from].kind != kinds.value.0 || nodes[e.to].kind != kinds.value.1 {
        return false;
      }
      if e.relation == Promoted && e.basis == Observed {
        return false;
      }
      out := out[e.from := EdgesAt(out, e.from) + [e]];
      ok := true;
    }

    /** Ancestry is exactly reachability. */
    method Ancestry(id: string) returns (r: Option<Answer>)
      requires Valid()
      ensures r.None? <==> id !in nodes
      ensures r.Some? ==> Exact(nodes, out, id, r.value)
    {
      if id !in nodes {
        return None;
      }
      InvParts(nodes, out);
      hide GraphInv, Keyed, Inward, Walk, Exact, AncestorEdges, ObservedIn, Lost, NodesKeyed, InOrder, Pushed,
        AnswerSoFar;
      var inn := TurnRound(out);
      var a := Answer([], [], 0, 0, []);
      var seen, stack := {id}, [id];
      ghost var visited: seq<string> := [];
      WalkStarts(nodes, out, id);
      while stack != []
        invariant Walk(nodes, out, id, visited, stack, seen, a)
        decreases |nodes.Keys - Elems(visited)|
      {
        var at := stack[|stack| - 1];
        ghost var was, low, before, v := stack, seen, a, visited;
        stack := stack[..|stack| - 1];
        var n := NodeAt(nodes, at);
        a := a.(nodes := a.nodes + [n]);
        if Lost(n) {
          a := a.(unretrievable := a.unretrievable + [n.id]);
        }
        var es := FindAncestorEdges(out, inn, at);
        stack, seen, a := Follow(es, stack, seen, a);
        WalkGoesOn(nodes, out, inn, id, v, was, low, before, stack, seen, a);
        visited := visited + [at];
      }
      WalkEnds(nodes, out, id, visited, seen, a);
      WalkedIsExact(nodes, out, id, visited, a);
      r := Some(InOrder(a));
    }
  }

  lemma InvParts(nodes: Nodes, out: Edges)
    requires GraphInv(nodes, out)
    ensures Keyed(out) && NodesKeyed(nodes)
  {
  }

  /** One turn of the loop, and that it comes nearer to the end. */
  lemma WalkGoesOn(
    nodes: Nodes, out: Edges, inn: Edges, id: string, visited: seq<string>, stack: seq<string>, seen: set<string>,
    a: Answer,
    stack': seq<string>, seen': set<string>, b: Answer)
    requires GraphInv(nodes, out) && Keyed(out) && Inward(inn, out, out.Keys)
    requires Walk(nodes, out, id, visited, stack, seen, a) && stack != []
    requires Pushed(stack[..|stack| - 1], seen, AncestorEdges(out, inn, stack[|stack| - 1]), stack', seen')
    requires var at := stack[|stack| - 1]; var es := AncestorEdges(out, inn, at);
      && b.nodes == a.nodes + [NodeAt(nodes, at)]
      && b.unretrievable == a.unretrievable + (if Lost(NodeAt(nodes, at)) then [NodeAt(nodes, at).id] else [])
      && b.edges == a.edges + es && b.observed == a.observed + ObservedIn(es)
      && b.observed + b.asserted == a.observed + a.asserted + |es|
    ensures var v := visited + [stack[|stack| - 1]];
      Walk(nodes, out, id, v, stack', seen', b) && |nodes.Keys - Elems(v)| < |nodes.Keys - Elems(visited)|
  {
    hide AncestorEdges, Inward, Keyed, AnswerSoFar, Claims, Reaches, GraphInv, AncestorsIn, ObservedIn, Lost, NodeAt;
    var at := stack[|stack| - 1];
    StackMoves(visited, stack, seen, AncestorEdges(out, inn, at), stack', seen');
    AnswerGrows(nodes, out, inn, visited, at, a, b);
    assert at in visited + stack by {
      assert at == (visited + stack)[|visited + stack| - 1];
    }
    WalkSteps(nodes, out, inn, id, visited, stack, seen, a, stack', seen', b);
    hide Walk, Pushed, NoDup;
    assert at in nodes.Keys - Elems(visited);
    assert nodes.Keys - Elems(visited + [at]) == nodes.Keys - Elems(visited) - {at};
  }
}
