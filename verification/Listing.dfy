/** Listing the registered routes by walking the tree. */
module Listing {
  import opened Wrappers
  import opened Tokens
  import opened Patterns
  import opened Tables
  import opened Searching
  import opened Radix

  /** The handlers of one pattern, by operation. */
  datatype Route = Route(handlers: map<string, Handler>, pattern: string)

  predicate Holds(r: Route, op: string, p: string, h: Handler) {
    r.pattern == p && op in r.handlers && r.handlers[op] == h
  }

  predicate Listed(rts: seq<Route>, op: string, p: string, h: Handler) {
    exists i :: 0 <= i < |rts| && Holds(rts[i], op, p, h)
  }

  predicate DistinctPatterns(rts: seq<Route>) {
    forall i, j :: 0 <= i < j < |rts| ==> rts[i].pattern != rts[j].pattern
  }

  predicate LiveAt(eps: Endpoints, op: string, p: string, h: Handler) {
    op in eps && eps[op].pattern == p && eps[op].handler == Some(h)
  }

  /** The routes of a table, by operation and pattern. */
  ghost predicate InTable(T: Table, op: string, p: string, h: Handler) {
    exists k :: LiveAt(Get(T, k), op, p, h)
  }

  // ----- one node

  predicate HasPattern(eps: Endpoints, p: string) {
    exists op :: op in eps && eps[op].pattern == p
  }

  /** The endpoints registered under pattern `p`, and their handlers. */
  function Under(eps: Endpoints, p: string): Endpoints {
    map op | op in eps && eps[op].pattern == p :: eps[op]
  }

  function HandlersOf(eps: Endpoints): map<string, Handler> {
    map op | op in eps && eps[op].handler.Some? :: eps[op].handler.value
  }

  method GroupByPattern(eps: Endpoints) returns (pats: map<string, Endpoints>)
    ensures forall p :: p in pats <==> p != "" && HasPattern(eps, p)
    ensures forall p :: p in pats ==> pats[p] == Under(eps, p)
  {
    pats := map[];
    var todo := eps.Keys;
    while todo != {}
      invariant todo <= eps.Keys
      invariant forall p :: p in pats ==> p != "" && HasPattern(eps, p)
      invariant forall p :: p in pats ==> pats[p] == map op | op in eps && op !in todo && eps[op].pattern == p :: eps[op]
      invariant forall op :: op in eps && op !in todo && eps[op].pattern != "" ==> eps[op].pattern in pats
      decreases todo
    {
      var op :| op in todo;
      var h := eps[op];
      if h.pattern != "" {
        var p := if h.pattern in pats then pats[h.pattern] else map[];
        pats := pats[h.pattern := p[op := h]];
      }
      todo := todo - {op};
    }
  }

  method LiveHandlers(mh: Endpoints) returns (hs: map<string, Handler>)
    ensures hs == HandlersOf(mh)
  {
    hs := map[];
    var ops := mh.Keys;
    while ops != {}
      invariant ops <= mh.Keys
      invariant hs == map op | op in mh && op !in ops && mh[op].handler.Some? :: mh[op].handler.value
      decreases ops
    {
      var op :| op in ops;
      if mh[op].handler.Some? {
        hs := hs[op := mh[op].handler.value];
      }
      ops := ops - {op};
    }
  }

  /** Groups a node's endpoints by pattern; endpoints without a handler are dropped. */
  method OwnRoutes(eps: Endpoints) returns (rts: seq<Route>)
    ensures forall op, p, h :: Listed(rts, op, p, h) <==> LiveAt(eps, op, p, h) && p != ""
    ensures DistinctPatterns(rts)
    ensures forall i :: 0 <= i < |rts| ==> HasPattern(eps, rts[i].pattern)
  {
    var pats := GroupByPattern(eps);
    rts := [];
    var names := pats.Keys;
    while names != {}
      invariant names <= pats.Keys
      invariant forall i :: 0 <= i < |rts| ==> rts[i].pattern in pats && rts[i].pattern !in names
      invariant forall i :: 0 <= i < |rts| ==> rts[i].handlers == HandlersOf(Under(eps, rts[i].pattern))
      invariant forall p :: p in pats && p !in names ==> exists i :: 0 <= i < |rts| && rts[i].pattern == p
      invariant DistinctPatterns(rts)
      decreases names
    {
      var p :| p in names;
      var hs := LiveHandlers(pats[p]);
      ghost var before := rts;
      rts := rts + [Route(hs, p)];
      assert forall i :: 0 <= i < |before| ==> rts[i] == before[i];
      assert rts[|before|].pattern == p;
      names := names - {p};
    }
    forall op, p, h
      ensures Listed(rts, op, p, h) <==> LiveAt(eps, op, p, h) && p != ""
    {
      assert op in eps ==> HasPattern(eps, eps[op].pattern);
      OwnListed(eps, rts, op, p, h);
    }
  }

  lemma OwnListed(eps: Endpoints, rts: seq<Route>, op: string, p: string, h: Handler)
    requires forall i :: 0 <= i < |rts| ==> rts[i].pattern != "" && rts[i].handlers == HandlersOf(Under(eps, rts[i].pattern))
    requires op in eps && eps[op].pattern != "" ==> exists i :: 0 <= i < |rts| && rts[i].pattern == eps[op].pattern
    ensures Listed(rts, op, p, h) <==> LiveAt(eps, op, p, h) && p != ""
  {
    if LiveAt(eps, op, p, h) && p != "" {
      var i :| 0 <= i < |rts| && rts[i].pattern == p;
      assert Holds(rts[i], op, p, h);
    }
    if Listed(rts, op, p, h) {
      var i :| 0 <= i < |rts| && Holds(rts[i], op, p, h);
    }
  }

  // ----- the whole tree

  /** The endpoints below the node at `at` record the pattern they were registered under. */
  ghost predicate PatternsOk(T: Table, at: seq<Tok>) {
    forall k, op :: op in Get(T, k) ==>
      Parses(Get(T, k)[op].pattern) && Get(T, k)[op].pattern != "" && Toks(Get(T, k)[op].pattern) == at + k
  }

  ghost predicate Bounded(T: Table, bound: nat) {
    forall k :: Get(T, k) != map[] ==> |k| <= bound
  }

  /** The routes visited when the walk has come to child `j` of group `t`. */
  predicate Visited(K: Kids, t: nat, j: nat, k: seq<Tok>)
    requires t <= 5
  {
    k == [] || Group(k[0]) < t || (t < 5 && Group(k[0]) == t && exists j': nat :: j' < j && Slot(K, t, j') && Head(K[t][j']) == k[0])
  }

  ghost predicate LiveVisited(T: Table, K: Kids, t: nat, j: nat, op: string, p: string, h: Handler)
    requires t <= 5
  {
    exists k :: Visited(K, t, j, k) && LiveAt(Get(T, k), op, p, h)
  }

  ghost predicate PatternVisited(T: Table, K: Kids, t: nat, j: nat, p: string)
    requires t <= 5
  {
    exists k :: Visited(K, t, j, k) && HasPattern(Get(T, k), p)
  }

  ghost predicate PatternInTable(T: Table, p: string) {
    exists k :: HasPattern(Get(T, k), p)
  }

  /** `rts` lists exactly the visited routes, each pattern once. */
  ghost predicate ListsVisited(rts: seq<Route>, T: Table, K: Kids, t: nat, j: nat)
    requires t <= 5
  {
    && (forall op, p, h :: Listed(rts, op, p, h) <==> LiveVisited(T, K, t, j, op, p, h))
    && DistinctPatterns(rts)
    && (forall i :: 0 <= i < |rts| ==> PatternVisited(T, K, t, j, rts[i].pattern))
  }

  /** `rts` lists exactly the routes of the table, each pattern once. */
  ghost predicate ListsTable(rts: seq<Route>, T: Table) {
    && (forall op, p, h :: Listed(rts, op, p, h) <==> InTable(T, op, p, h))
    && DistinctPatterns(rts)
    && (forall i :: 0 <= i < |rts| ==> PatternInTable(T, rts[i].pattern))
  }

  lemma ListedConcat(a: seq<Route>, b: seq<Route>, op: string, p: string, h: Handler)
    ensures Listed(a + b, op, p, h) <==> Listed(a, op, p, h) || Listed(b, op, p, h)
  {
    if Listed(a, op, p, h) {
      var i :| 0 <= i < |a| && Holds(a[i], op, p, h);
      assert Holds((a + b)[i], op, p, h);
    }
    if Listed(b, op, p, h) {
      var i :| 0 <= i < |b| && Holds(b[i], op, p, h);
      assert Holds((a + b)[|a| + i], op, p, h);
    }
    if Listed(a + b, op, p, h) {
      var i :| 0 <= i < |a + b| && Holds((a + b)[i], op, p, h);
      assert if i < |a| then Holds(a[i], op, p, h) else Holds(b[i - |a|], op, p, h);
    }
  }

  /** One more child: the routes that lead through it are visited, and nothing else. */
  lemma VisitNext(T: Table, K: Kids, t: nat, j: nat, k: seq<Tok>)
    requires KidsOk(T, K) && HeadsDiffer(K) && AllCovered(T, K) && Slot(K, t, j) && Get(T, k) != map[]
    ensures Visited(K, t, j + 1, k) <==> Visited(K, t, j, k) || Edge(K[t][j]) <= k
    ensures !(Visited(K, t, j, k) && Edge(K[t][j]) <= k)
  {
    EdgeHead(K[t][j]);
    if k != [] {
      assert Covered(K, k);
      var t': nat, i: nat :| Slot(K, t', i) && Edge(K[t'][i]) <= k;
      EdgeHead(K[t'][i]);
      if k[0] == Head(K[t][j]) {
        OneEdge(T, K, k, t', i, t, j);
      }
    }
  }

  lemma VisitChild(T: Table, K: Kids, t: nat, j: nat, op: string, p: string, h: Handler)
    requires KidsOk(T, K) && HeadsDiffer(K) && AllCovered(T, K) && Slot(K, t, j)
    ensures LiveVisited(T, K, t, j + 1, op, p, h) <==> LiveVisited(T, K, t, j, op, p, h) || InTable(K[t][j].table, op, p, h)
  {
    var c := K[t][j];
    if LiveVisited(T, K, t, j + 1, op, p, h) {
      var k :| Visited(K, t, j + 1, k) && LiveAt(Get(T, k), op, p, h);
      VisitNext(T, K, t, j, k);
      if Edge(c) <= k {
        var rest := k[|Edge(c)|..];
        assert k == Edge(c) + rest;
        assert LiveAt(Get(c.table, rest), op, p, h);
      }
    }
    if LiveVisited(T, K, t, j, op, p, h) {
      var k :| Visited(K, t, j, k) && LiveAt(Get(T, k), op, p, h);
      VisitNext(T, K, t, j, k);
    }
    if InTable(c.table, op, p, h) {
      var rest :| LiveAt(Get(c.table, rest), op, p, h);
      assert Get(c.table, rest) == Get(T, Edge(c) + rest);
      VisitNext(T, K, t, j, Edge(c) + rest);
    }
  }

  /** A pattern is recorded under its own tokens only. */
  lemma OneRoute(T: Table, at: seq<Tok>, p: string, k: seq<Tok>, k': seq<Tok>)
    requires PatternsOk(T, at) && HasPattern(Get(T, k), p) && HasPattern(Get(T, k'), p)
    ensures k == k'
  {
    assert k == (at + k)[|at|..] && k' == (at + k')[|at|..];
  }

  /** The patterns behind a child are visited with it, and were not visited before. */
  lemma VisitPattern(T: Table, K: Kids, at: seq<Tok>, t: nat, j: nat, p: string)
    requires KidsOk(T, K) && HeadsDiffer(K) && AllCovered(T, K) && Slot(K, t, j) && PatternsOk(T, at)
    requires PatternInTable(K[t][j].table, p)
    ensures PatternVisited(T, K, t, j + 1, p) && !PatternVisited(T, K, t, j, p)
  {
    var c := K[t][j];
    var rest :| HasPattern(Get(c.table, rest), p);
    var k := Edge(c) + rest;
    assert Get(c.table, rest) == Get(T, k);
    VisitNext(T, K, t, j, k);
    forall k' | Visited(K, t, j, k')
      ensures !HasPattern(Get(T, k'), p)
    {
      if HasPattern(Get(T, k'), p) {
        OneRoute(T, at, p, k, k');
      }
    }
  }

  lemma VisitMore(T: Table, K: Kids, t: nat, j: nat, p: string)
    requires KidsOk(T, K) && HeadsDiffer(K) && AllCovered(T, K) && Slot(K, t, j)
    requires PatternVisited(T, K, t, j, p)
    ensures PatternVisited(T, K, t, j + 1, p)
  {
    var k :| Visited(K, t, j, k) && HasPattern(Get(T, k), p);
    VisitNext(T, K, t, j, k);
  }

  lemma AddChildRoutes(rts: seq<Route>, sub: seq<Route>, T: Table, K: Kids, at: seq<Tok>, t: nat, j: nat)
    requires KidsOk(T, K) && HeadsDiffer(K) && AllCovered(T, K) && Slot(K, t, j) && PatternsOk(T, at)
    requires ListsVisited(rts, T, K, t, j) && ListsTable(sub, K[t][j].table)
    ensures ListsVisited(rts + sub, T, K, t, j + 1)
  {
    forall op, p, h
      ensures Listed(rts + sub, op, p, h) <==> LiveVisited(T, K, t, j + 1, op, p, h)
    {
      ListedConcat(rts, sub, op, p, h);
      VisitChild(T, K, t, j, op, p, h);
    }
    forall i | 0 <= i < |rts|
      ensures PatternVisited(T, K, t, j + 1, rts[i].pattern)
    {
      VisitMore(T, K, t, j, rts[i].pattern);
    }
    forall i | 0 <= i < |sub|
      ensures PatternVisited(T, K, t, j + 1, sub[i].pattern) && !PatternVisited(T, K, t, j, sub[i].pattern)
    {
      VisitPattern(T, K, at, t, j, sub[i].pattern);
    }
  }

  /** Past the last child of a group the next group begins. */
  lemma VisitGroup(rts: seq<Route>, T: Table, K: Kids, t: nat)
    requires t < 5 && KidsOk(T, K) && AllCovered(T, K) && ListsVisited(rts, T, K, t, |K[t]|)
    ensures ListsVisited(rts, T, K, t + 1, 0)
  {
    forall k | Get(T, k) != map[]
      ensures Visited(K, t, |K[t]|, k) <==> Visited(K, t + 1, 0, k)
    {
      if k != [] {
        assert Covered(K, k);
        var t': nat, i: nat :| Slot(K, t', i) && Edge(K[t'][i]) <= k;
        EdgeHead(K[t'][i]);
      }
    }
    SameVisits(rts, T, K, t, |K[t]|, t + 1, 0);
  }

  lemma SameVisits(rts: seq<Route>, T: Table, K: Kids, t: nat, j: nat, t': nat, j': nat)
    requires t <= 5 && t' <= 5 && ListsVisited(rts, T, K, t, j)
    requires forall k :: Get(T, k) != map[] ==> (Visited(K, t, j, k) <==> Visited(K, t', j', k))
    ensures ListsVisited(rts, T, K, t', j')
  {
    forall op, p, h
      ensures LiveVisited(T, K, t, j, op, p, h) <==> LiveVisited(T, K, t', j', op, p, h)
    {
      if LiveVisited(T, K, t, j, op, p, h) {
        var k :| Visited(K, t, j, k) && LiveAt(Get(T, k), op, p, h);
        assert Visited(K, t', j', k);
      }
      if LiveVisited(T, K, t', j', op, p, h) {
        var k :| Visited(K, t', j', k) && LiveAt(Get(T, k), op, p, h);
        assert Visited(K, t, j, k);
      }
    }
    forall i | 0 <= i < |rts|
      ensures PatternVisited(T, K, t', j', rts[i].pattern)
    {
      var k :| Visited(K, t, j, k) && HasPattern(Get(T, k), rts[i].pattern);
      assert Visited(K, t', j', k);
    }
  }

  /** Before the first group only the node itself has been visited. */
  lemma VisitSelf(rts: seq<Route>, eps: Endpoints, T: Table, K: Kids, at: seq<Tok>)
    requires Get(T, []) == eps && PatternsOk(T, at)
    requires forall op, p, h :: Listed(rts, op, p, h) <==> LiveAt(eps, op, p, h) && p != ""
    requires DistinctPatterns(rts)
    requires forall i :: 0 <= i < |rts| ==> HasPattern(eps, rts[i].pattern)
    ensures ListsVisited(rts, T, K, 0, 0)
  {
    assert Visited(K, 0, 0, []);
    forall op, p, h
      ensures Listed(rts, op, p, h) <==> LiveVisited(T, K, 0, 0, op, p, h)
    {
      if LiveVisited(T, K, 0, 0, op, p, h) {
        var k :| Visited(K, 0, 0, k) && LiveAt(Get(T, k), op, p, h);
        assert k == [];
      }
    }
  }

  lemma AllVisited(rts: seq<Route>, T: Table, K: Kids)
    requires ListsVisited(rts, T, K, 5, 0)
    ensures ListsTable(rts, T)
  {
    forall op, p, h
      ensures Listed(rts, op, p, h) <==> InTable(T, op, p, h)
    {
      if InTable(T, op, p, h) {
        var k :| LiveAt(Get(T, k), op, p, h);
        assert Visited(K, 5, 0, k);
      }
    }
  }

  lemma BelowBound(T: Table, c: Kid, at: seq<Tok>, bound: nat)
    requires KidOk(c) && IsSub(T, Edge(c), c.table) && Used(c.table) && Bounded(T, bound) && PatternsOk(T, at)
    ensures bound > 0 && Bounded(c.table, bound - 1) && PatternsOk(c.table, at + Edge(c))
  {
    EdgeHead(c);
    var k0 :| k0 in c.table && c.table[k0] != map[];
    assert Get(c.table, k0) == Get(T, Edge(c) + k0);
    forall k | Get(c.table, k) != map[]
      ensures |k| <= bound - 1
    {
      assert Get(T, Edge(c) + k) != map[];
    }
    forall k, op | op in Get(c.table, k)
      ensures Parses(Get(c.table, k)[op].pattern) && Get(c.table, k)[op].pattern != ""
      ensures Toks(Get(c.table, k)[op].pattern) == at + Edge(c) + k
    {
      assert op in Get(T, Edge(c) + k);
      assert at + (Edge(c) + k) == at + Edge(c) + k;
    }
  }

  /** Visits one child and everything below it. */
  method WalkChild(n: Node, t: nat, j: nat, rts: seq<Route>, ghost nodes: set<Node>, ghost bound: nat) returns (more: seq<Route>)
    requires n in nodes && Node.TreeOk(nodes) && t < 5 && j < |n.children[t]|
    requires Bounded(n.info.table, bound) && PatternsOk(n.info.table, n.path) && ListsVisited(rts, n.info.table, n.kids, t, j)
    ensures ListsVisited(more, n.info.table, n.kids, t, j + 1)
    decreases bound, 0
  {
    assert n.Local() && Slot(n.kids, t, j) && n.Owns(n.children[t][j], n.kids[t][j]);
    BelowBound(n.info.table, n.kids[t][j], n.path, bound);
    var sub := Walk(n.children[t][j], nodes, bound - 1);
    AddChildRoutes(rts, sub, n.info.table, n.kids, n.path, t, j);
    more := rts + sub;
  }

  /** Visits a node and everything below it. */
  method Walk(n: Node, ghost nodes: set<Node>, ghost bound: nat) returns (rts: seq<Route>)
    requires n in nodes && Node.TreeOk(nodes)
    requires Bounded(n.info.table, bound) && PatternsOk(n.info.table, n.path)
    ensures ListsTable(rts, n.info.table)
    decreases bound, 1
  {
    assert n.Local();
    ghost var T, K := n.info.table, n.kids;
    rts := OwnRoutes(n.endpoints);
    VisitSelf(rts, n.endpoints, T, K, n.path);
    var t := 0;
    while t < 5
      invariant 0 <= t <= 5 && ListsVisited(rts, T, K, t, 0)
    {
      var j := 0;
      while j < |n.children[t]|
        invariant 0 <= j <= |n.children[t]| && ListsVisited(rts, T, K, t, j)
      {
        rts := WalkChild(n, t, j, rts, nodes, bound);
        j := j + 1;
      }
      VisitGroup(rts, T, K, t);
      t := t + 1;
    }
    AllVisited(rts, T, K);
  }

  // ----- the listing as a map

  /** Operation to pattern to handler. */
  type Handlers = map<string, map<string, Handler>>

  predicate InMap(hs: Handlers, op: string, p: string, h: Handler) {
    op in hs && p in hs[op] && hs[op][p] == h
  }

  /** Two such maps without empty parts that hold the same handlers are equal. */
  lemma MapDetermined(a: Handlers, b: Handlers)
    requires forall op, p, h :: InMap(a, op, p, h) <==> InMap(b, op, p, h)
    requires forall op :: op in a ==> a[op] != map[]
    requires forall op :: op in b ==> b[op] != map[]
    ensures a == b
  {
    forall op
      ensures op in a <==> op in b
      ensures op in a && op in b ==> a[op] == b[op]
    {
      if op in a {
        var p :| p in a[op];
        assert InMap(a, op, p, a[op][p]);
      }
      if op in b {
        var p :| p in b[op];
        assert InMap(b, op, p, b[op][p]);
      }
      if op in a && op in b {
        forall p
          ensures p in a[op] <==> p in b[op]
          ensures p in a[op] && p in b[op] ==> a[op][p] == b[op][p]
        {
          assert p in a[op] ==> InMap(a, op, p, a[op][p]);
          assert p in b[op] ==> InMap(b, op, p, b[op][p]);
        }
      }
    }
  }

  method AddRoute(hs0: Handlers, rt: Route) returns (hs: Handlers)
    requires forall op, p, h :: InMap(hs0, op, p, h) ==> p != rt.pattern
    requires forall op :: op in hs0 ==> hs0[op] != map[]
    ensures forall op, p, h :: InMap(hs, op, p, h) <==> InMap(hs0, op, p, h) || Holds(rt, op, p, h)
    ensures forall op :: op in hs ==> hs[op] != map[]
  {
    hs := hs0;
    var ops := rt.handlers.Keys;
    while ops != {}
      invariant ops <= rt.handlers.Keys
      invariant forall op, p, h :: InMap(hs, op, p, h) <==> InMap(hs0, op, p, h) || (Holds(rt, op, p, h) && op !in ops)
      invariant forall op :: op in hs ==> hs[op] != map[]
      decreases ops
    {
      var op :| op in ops;
      ghost var before := hs;
      if op !in hs {
        hs := hs[op := map[]];
      }
      hs := hs[op := hs[op][rt.pattern := rt.handlers[op]]];
      assert rt.pattern in hs[op];
      ops := ops - {op};
      forall op', p, h
        ensures InMap(hs, op', p, h) <==> InMap(before, op', p, h) || (op' == op && Holds(rt, op, p, h))
      {
        assert InMap(before, op, rt.pattern, h) ==> InMap(hs0, op, rt.pattern, h);
      }
    }
  }

  /** The handlers of a listing, by operation and pattern. */
  method HandlerMap(rts: seq<Route>) returns (hs: Handlers)
    requires DistinctPatterns(rts)
    ensures forall op, p, h :: InMap(hs, op, p, h) <==> Listed(rts, op, p, h)
    ensures forall op :: op in hs ==> hs[op] != map[]
  {
    hs := map[];
    var i := 0;
    while i < |rts|
      invariant 0 <= i <= |rts|
      invariant forall op, p, h :: InMap(hs, op, p, h) <==> Listed(rts[..i], op, p, h)
      invariant forall op :: op in hs ==> hs[op] != map[]
    {
      ghost var before := hs;
      forall op, p, h | InMap(before, op, p, h)
        ensures p != rts[i].pattern
      {
        var j :| 0 <= j < i && Holds(rts[..i][j], op, p, h);
      }
      hs := AddRoute(hs, rts[i]);
      forall op, p, h
        ensures InMap(hs, op, p, h) <==> Listed(rts[..i + 1], op, p, h)
      {
        assert rts[..i + 1] == rts[..i] + [rts[i]];
        ListedConcat(rts[..i], [rts[i]], op, p, h);
        assert Holds([rts[i]][0], op, p, h) <==> Holds(rts[i], op, p, h);
      }
      i := i + 1;
    }
    assert rts[..i] == rts;
  }
}
