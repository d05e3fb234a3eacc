/** When the greedy walk over the component tree comes to a route that matches the path. */
module Shadowing {
  import opened Wrappers
  import opened Tokens
  import opened Patterns
  import opened Tables
  import opened Segments
  import opened Routers
  import opened Components
  import opened Trees
  import opened Navigation
  import opened TwoIndexes

  /** Nothing in the tree takes the path away from the route: where the route has a parameter or a
      final '*', no child has the component's own name, and where it has a final '*', no child is a
      parameter. */
  ghost predicate Unshadowed(V: Values, p: seq<string>, gs: seq<Seg>, cs: seq<string>)
    decreases |gs|
  {
    gs != [] ==>
      && cs != []
      && (!gs[0].Word? ==> Below(p, cs[0]) !in V)
      && (gs[0].Star? ==> NoParam(V, p))
      && (!gs[0].Star? ==> Unshadowed(V, Below(p, SegText(gs[0])), gs[1..], cs[1..]))
  }

  /** The walk went all the way through these segments. */
  ghost predicate Reaches(m: Engine, V: Values, p: seq<string>, cs: seq<string>, trail: seq<Move>, gs: seq<Seg>)
    requires Walks(m, V, p, cs, trail)
  {
    Left(m, V, p, cs, trail) == [] && Names(trail) == Parts(gs)
  }

  /** Where the path is not taken away, the tree allows the move through the segment. */
  lemma SegmentMove(m: Engine, V: Values, p: seq<string>, g: Seg, c: string)
    requires PlainTree(V) && PlainSeg(g) && Below(p, SegText(g)) in V && (SegMatch(m, g, c) || g.Star?)
    requires (!g.Word? ==> Below(p, c) !in V) && (g.Star? ==> NoParam(V, p))
    ensures !Stuck(m, V, p, c)
  {
    PlainPart(g);
    assert NoGlob(m, V, p, c);
    var mv := match g case Word(_) => Exact(c) case Name(_) => ByParam(SegText(g)) case _ => TakeAll;
    assert Takes(m, V, p, c, mv);
  }

  /** A move goes through the segment exactly when the path is not taken away from it. */
  lemma MoveIsSegment(m: Engine, V: Values, p: seq<string>, g: Seg, c: string, mv: Move)
    requires PlainTree(V) && PlainSeg(g) && Below(p, SegText(g)) in V && (SegMatch(m, g, c) || g.Star?)
    requires Takes(m, V, p, c, mv) && Without(c, "{}*") && c != ""
    ensures NameOf(mv) == SegText(g) <==> (!g.Word? ==> Below(p, c) !in V) && (g.Star? ==> NoParam(V, p))
  {
    PlainPart(g);
    PlainComp(c);
    assert Below(p, NameOf(mv)) in V;
    if g.Name? {
      assert ParamChild(V, p, SegText(g));
    }
  }

  lemma NamesHead(trail: seq<Move>, gs: seq<Seg>)
    requires trail != [] && gs != []
    ensures Names(trail) == Parts(gs) <==> NameOf(trail[0]) == SegText(gs[0]) && Names(trail[1..]) == Parts(gs[1..])
  {
    var a, b := Names(trail), Parts(gs);
    assert a[1..] == Names(trail[1..]) && b[1..] == Parts(gs[1..]);
    assert a == [a[0]] + a[1..] && b == [b[0]] + b[1..];
  }

  /** The walk reaches a route that matches the path exactly when nothing shadows the route on it. */
  lemma {:induction false} ReachesExactlyWhen(m: Engine, V: Values, p: seq<string>, cs: seq<string>, trail: seq<Move>, gs: seq<Seg>)
    requires PlainTree(V) && PlainComps(cs) && PlainSegs(gs) && InTree(V, p, gs) && SegsMatch(m, gs, cs)
    requires Whole(m, V, p, cs, trail)
    ensures Reaches(m, V, p, cs, trail, gs) <==> Unshadowed(V, p, gs, cs)
    decreases |gs|
  {
    if gs == [] {
      assert trail == [] && Names(trail) == Parts(gs);
    } else {
      var g := gs[0];
      PlainTail(gs);
      CompsTail(cs);
      if trail == [] {
        if (!g.Word? ==> Below(p, cs[0]) !in V) && (g.Star? ==> NoParam(V, p)) {
          SegmentMove(m, V, p, g, cs[0]);
        }
      } else {
        MoveIsSegment(m, V, p, g, cs[0], trail[0]);
        NamesHead(trail, gs);
        if NameOf(trail[0]) == SegText(g) {
          MoveMatches(m, V, p, cs[0], trail[0], g);
          if g.Star? {
            assert Walks(m, V, Below(p, NameOf(trail[0])), After(cs, trail[0]), trail[1..]);
            assert gs[1..] == [] && trail[1..] == [] && Names(trail[1..]) == Parts(gs[1..]);
            assert Left(m, V, Below(p, NameOf(trail[0])), After(cs, trail[0]), trail[1..]) == [];
          } else {
            ReachesExactlyWhen(m, V, Below(p, NameOf(trail[0])), cs[1..], trail[1..], gs[1..]);
          }
        }
      }
    }
  }

  // ----- what a lookup finds, and what the walk reaches

  /** The walk ends at a node with a handler for `op`. */
  ghost predicate Arrives(m: Engine, V: Values, cs: seq<string>, trail: seq<Move>, op: string)
    requires Walks(m, V, [], cs, trail)
  {
    Left(m, V, [], cs, trail) == [] && End([], trail) in V && op in V[End([], trail)].handlers
  }

  /** A registered route's node is in the tree, with its handler's operation. */
  lemma RouteNode(log: seq<Reg>, V: Values, order: seq<Entry>, e: Entry)
    requires ValidLog(log) && Built(V, order) && forall f :: f in order <==> Registered(log, f)
    requires Registered(log, e) && PlainPattern(e.pattern)
    ensures SplitPath(e.pattern) in V && e.op in V[SplitPath(e.pattern)].handlers
    ensures InTree(V, [], SegsOf(e.pattern))
  {
    var q := SplitPath(e.pattern);
    assert Passes(e, q) && Has(order, q);
    HandlerKeys(order, q, e.op);
    PartsOf(e.pattern);
    assert [] + Parts(SegsOf(e.pattern)) == q;
    RouteInTree(V, order, e, [], SegsOf(e.pattern));
  }

  /** An answer names a registered route that matches the path. */
  lemma AnswerRoute(log: seq<Reg>, m: Engine, op: string, cs: seq<string>, i: nat,
                    handler: Option<Handler>, params: map<string, string>, pattern: string) returns (e: Entry)
    requires ValidLog(log) && AllPlain(log) && PlainComps(cs)
    requires Answer(log, m, op, PathOf(cs), true, i, handler, params, pattern)
    ensures Registered(log, e) && e == Entry(op, pattern, log[i].handler.value) && PlainPattern(pattern) && Parses(pattern)
    ensures cs != [] ==> SegsMatch(m, SegsOf(pattern), cs)
  {
    e := Entry(op, pattern, log[i].handler.value);
    assert log[i] == Reg(op, pattern, Some(e.handler));
    if cs != [] {
      PlainMatch(m, true, pattern, cs);
    }
  }

  /** A walk through the segments of a registered route arrives. */
  lemma ReachedArrives(log: seq<Reg>, m: Engine, op: string, cs: seq<string>, V: Values, order: seq<Entry>, trail: seq<Move>, e: Entry)
    requires ValidLog(log) && Built(V, order) && forall f :: f in order <==> Registered(log, f)
    requires Registered(log, e) && e.op == op && PlainPattern(e.pattern)
    requires Walks(m, V, [], cs, trail) && Reaches(m, V, [], cs, trail, SegsOf(e.pattern))
    ensures Arrives(m, V, cs, trail, op)
  {
    RouteNode(log, V, order, e);
    PartsOf(e.pattern);
    EndIs([], trail);
    assert [] + Names(trail) == Names(trail);
  }

  /** A walk that arrives has gone through the segments of the pattern that the lookup finds. */
  lemma ArrivesReached(log: seq<Reg>, m: Engine, op: string, cs: seq<string>, V: Values, order: seq<Entry>, trail: seq<Move>,
                       i: nat, handler: Option<Handler>, params: map<string, string>, pattern: string)
    requires ValidLog(log) && AllPlain(log) && OneName(log) && PlainComps(cs)
    requires Built(V, order) && forall f :: f in order <==> Registered(log, f)
    requires Walks(m, V, [], cs, trail) && Arrives(m, V, cs, trail, op)
    requires Answer(log, m, op, PathOf(cs), true, i, handler, params, pattern)
    ensures Reaches(m, V, [], cs, trail, SegsOf(pattern))
  {
    var e, j := RouteAtEnd(log, V, order, End([], trail), op);
    assert PlainPattern(e.pattern) && Parses(e.pattern);
    if cs == [] {
      RootAgrees(log, m, op, e, j, true, i, handler, params, pattern);
      RootReads();
    } else {
      NamesAtEnd(trail, e.pattern);
      NotRoot(trail, e.pattern);
      TreeIsPlain(log, V, order);
      WalkCaptures(m, V, cs, trail, e.pattern, false);
      assert Competes(log, m, false, op, PathOf(cs), j);
      SamePatternFound(log, m, op, cs, V, order, trail, e, i);
    }
  }

  /** A handler that the lookup finds is one the walk arrives at exactly when nothing in the tree shadows
      its route on the path. */
  lemma FoundIsReachedExactlyWhen(log: seq<Reg>, m: Engine, op: string, cs: seq<string>, V: Values, order: seq<Entry>,
                                  trail: seq<Move>, i: nat, handler: Option<Handler>, params: map<string, string>, pattern: string)
    requires ValidLog(log) && AllPlain(log) && OneName(log) && PlainComps(cs)
    requires Built(V, order) && forall f :: f in order <==> Registered(log, f)
    requires Whole(m, V, [], cs, trail)
    requires Answer(log, m, op, PathOf(cs), true, i, handler, params, pattern)
    ensures Arrives(m, V, cs, trail, op) <==> Unshadowed(V, [], SegsOf(pattern), cs)
    ensures Arrives(m, V, cs, trail, op) ==> handler == Some(V[End([], trail)].handlers[op])
  {
    var e := AnswerRoute(log, m, op, cs, i, handler, params, pattern);
    if Arrives(m, V, cs, trail, op) {
      IndexesAgree(log, m, op, cs, V, order, trail, true, i, handler, params, pattern);
      ArrivesReached(log, m, op, cs, V, order, trail, i, handler, params, pattern);
    }
    if Reaches(m, V, [], cs, trail, SegsOf(pattern)) {
      ReachedArrives(log, m, op, cs, V, order, trail, e);
    }
    FoundIsReached(log, m, op, cs, V, order, trail, e);
  }

  lemma FoundIsReached(log: seq<Reg>, m: Engine, op: string, cs: seq<string>, V: Values, order: seq<Entry>, trail: seq<Move>, e: Entry)
    requires ValidLog(log) && AllPlain(log) && OneName(log) && PlainComps(cs)
    requires Built(V, order) && forall f :: f in order <==> Registered(log, f)
    requires Whole(m, V, [], cs, trail) && Registered(log, e) && PlainPattern(e.pattern)
    requires cs != [] ==> SegsMatch(m, SegsOf(e.pattern), cs)
    ensures Reaches(m, V, [], cs, trail, SegsOf(e.pattern)) <==> Unshadowed(V, [], SegsOf(e.pattern), cs)
  {
    var gs := SegsOf(e.pattern);
    if cs != [] {
      TreeIsPlain(log, V, order);
      RouteNode(log, V, order, e);
      ReachesExactlyWhen(m, V, [], cs, trail, gs);
    } else {
      assert trail == [] && (Names(trail) == Parts(gs) <==> gs == []);
    }
  }

  // ----- both indexes of one router

  /** Asks both indexes of a router for the same path. */
  method LookUpBothWays(r: Router, m: Engine, op: string, cs: seq<string>)
    returns (handler: Option<Handler>, params: map<string, string>, pattern: string,
             node: TreeNode?, walked: map<string, string>, ghost V: Values, ghost order: seq<Entry>)
    requires r.Ok() && AllPlain(r.log) && OneName(r.log) && PlainComps(cs)
    ensures Built(V, order) && forall e :: e in order <==> Registered(r.log, e)
    ensures node != null && op in node.handlers ==> handler == Some(node.handlers[op]) && params == walked
    ensures handler.Some? ==> (node != null && op in node.handlers <==> Unshadowed(V, [], SegsOf(pattern), cs))
  {
    ghost var log := r.log;
    var root;
    ghost var at, trail, i;
    root, at, V, order := GetTree(r);
    node, walked, trail := FindNode(m, root, cs, map[], at, V, []);
    handler, params, pattern, i := r.Find(m, op, PathOf(cs));
    if node != null && op in node.handlers {
      IndexesAgree(log, m, op, cs, V, order, trail, handler.Some?, i, handler, params, pattern);
    }
    if handler.Some? {
      FoundIsReachedExactlyWhen(log, m, op, cs, V, order, trail, i, handler, params, pattern);
    }
  }
}
